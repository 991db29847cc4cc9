// The page's own sha256 (client/pairing.mjs): typed arrays filled in place,
// JavaScript numbers that are sometimes signed and reduced late.
module Sha256Code {
  import opened Words
  import opened Fips

  // ------------------------------------------------------------- expressions, as the page writes them

  function JsRotr(x: int, n: nat): int
    requires 0 < n < 32
  {
    JsOr(JsShr(x, n), JsShl(x, 32 - n))
  }

  lemma XorAgrees(x: int, y: int)
    ensures ToUint32(JsXor(x, y)) == Xor(ToUint32(x), ToUint32(y)) && IsInt32(JsXor(x, y))
  {
    SignedAndBack(Xor(ToUint32(x), ToUint32(y)));
  }

  lemma AndAgrees(x: int, y: int)
    ensures ToUint32(JsAnd(x, y)) == And(ToUint32(x), ToUint32(y))
  {
    SignedAndBack(And(ToUint32(x), ToUint32(y)));
  }

  lemma RotrAgrees(x: Word, n: nat)
    requires 0 < n < 32
    ensures ToUint32(JsRotr(x, n)) == Rotr(x, n)
  {
    WordIsItself(x);
    WordIsItself(Shr(x, n));
    SignedAndBack(Shl(x, 32 - n));
    SignedAndBack(Or(Shr(x, n), Shl(x, 32 - n)));
  }

  // The signed value a formula yields, against the word the standard has.
  ghost predicate Agrees(signed: int, word: Word) { ToUint32(signed) == word && IsInt32(signed) }

  lemma XorOf3(x: int, y: int, z: int)
    ensures Agrees(JsXor(JsXor(x, y), z), Xor(Xor(ToUint32(x), ToUint32(y)), ToUint32(z)))
  {
    XorAgrees(x, y);
    XorAgrees(JsXor(x, y), z);
  }

  // The page's expressions: each a signed 32-bit number that agrees with the
  // standard's function.
  method SmallSigma0(x: Word) returns (r: int)
    ensures Agrees(r, Sigma0(x))
  {
    r := JsXor(JsXor(JsRotr(x, 7), JsRotr(x, 18)), JsShr(x, 3));
    RotrAgrees(x, 7);
    RotrAgrees(x, 18);
    WordIsItself(x);
    WordIsItself(Shr(x, 3));
    XorOf3(JsRotr(x, 7), JsRotr(x, 18), JsShr(x, 3));
  }

  method SmallSigma1(x: Word) returns (r: int)
    ensures Agrees(r, Sigma1(x))
  {
    r := JsXor(JsXor(JsRotr(x, 17), JsRotr(x, 19)), JsShr(x, 10));
    RotrAgrees(x, 17);
    RotrAgrees(x, 19);
    WordIsItself(x);
    WordIsItself(Shr(x, 10));
    XorOf3(JsRotr(x, 17), JsRotr(x, 19), JsShr(x, 10));
  }

  method Big0(a: Word) returns (r: int)
    ensures Agrees(r, BigSigma0(a))
  {
    r := JsXor(JsXor(JsRotr(a, 2), JsRotr(a, 13)), JsRotr(a, 22));
    RotrAgrees(a, 2);
    RotrAgrees(a, 13);
    RotrAgrees(a, 22);
    XorOf3(JsRotr(a, 2), JsRotr(a, 13), JsRotr(a, 22));
  }

  method Big1(e: Word) returns (r: int)
    ensures Agrees(r, BigSigma1(e))
  {
    r := JsXor(JsXor(JsRotr(e, 6), JsRotr(e, 11)), JsRotr(e, 25));
    RotrAgrees(e, 6);
    RotrAgrees(e, 11);
    RotrAgrees(e, 25);
    XorOf3(JsRotr(e, 6), JsRotr(e, 11), JsRotr(e, 25));
  }

  method Choose(e: Word, f: Word, g: Word) returns (r: int)
    ensures Agrees(r, Ch(e, f, g))
  {
    r := JsXor(JsAnd(e, f), JsAnd(JsNot(e), g));
    WordIsItself(e);
    WordIsItself(f);
    WordIsItself(g);
    SignedAndBack(Not(e));
    AndAgrees(e, f);
    AndAgrees(JsNot(e), g);
    XorAgrees(JsAnd(e, f), JsAnd(JsNot(e), g));
  }

  method Majority(a: Word, b: Word, c: Word) returns (r: int)
    ensures Agrees(r, Maj(a, b, c))
  {
    r := JsXor(JsXor(JsAnd(a, b), JsAnd(a, c)), JsAnd(b, c));
    WordIsItself(a);
    WordIsItself(b);
    WordIsItself(c);
    AndAgrees(a, b);
    AndAgrees(a, c);
    AndAgrees(b, c);
    XorOf3(JsAnd(a, b), JsAnd(a, c), JsAnd(b, c));
  }

  // ------------------------------------------------------------- sums

  // w[i - 16] + s0 + w[i - 7] + s1, left to right, stored in a Uint32Array.
  lemma ScheduleSum(w16: Word, s0: int, w7: Word, s1: int, sigma0: Word, sigma1: Word)
    requires Agrees(s0, sigma0) && Agrees(s1, sigma1)
    ensures ToUint32(w16 + s0 + w7 + s1) == Add(Add(Add(sigma1, w7), sigma0), w16)
  {
    DelayedReduction(s1, w7);
    DelayedReduction(s1 + w7, s0);
    DelayedReduction(s1 + w7 + s0, w16);
    WordIsItself(w7);
    WordIsItself(w16);
  }

  // hh + big1 + ch + K[i] + w[i]
  lemma T1Sum(h: Word, big1: int, ch: int, k: Word, w: Word, sigma: Word, choice: Word)
    requires Agrees(big1, sigma) && Agrees(ch, choice)
    ensures ToUint32(h + big1 + ch + k + w) == Add(Add(Add(Add(h, sigma), choice), k), w)
  {
    DelayedReduction(h, big1);
    DelayedReduction(h + big1, ch);
    DelayedReduction(h + big1 + ch, k);
    DelayedReduction(h + big1 + ch + k, w);
    WordIsItself(h);
    WordIsItself(k);
    WordIsItself(w);
  }

  // ------------------------------------------------------------- constants

  // The page's own table.
  const PAGE_K: seq<Word> := [
    0x428a2f98, 0x71374491, 0xb5c0fbcf, 0xe9b5dba5, 0x3956c25b, 0x59f111f1, 0x923f82a4, 0xab1c5ed5,
    0xd807aa98, 0x12835b01, 0x243185be, 0x550c7dc3, 0x72be5d74, 0x80deb1fe, 0x9bdc06a7, 0xc19bf174,
    0xe49b69c1, 0xefbe4786, 0x0fc19dc6, 0x240ca1cc, 0x2de92c6f, 0x4a7484aa, 0x5cb0a9dc, 0x76f988da,
    0x983e5152, 0xa831c66d, 0xb00327c8, 0xbf597fc7, 0xc6e00bf3, 0xd5a79147, 0x06ca6351, 0x14292967,
    0x27b70a85, 0x2e1b2138, 0x4d2c6dfc, 0x53380d13, 0x650a7354, 0x766a0abb, 0x81c2c92e, 0x92722c85,
    0xa2bfe8a1, 0xa81a664b, 0xc24b8b70, 0xc76c51a3, 0xd192e819, 0xd6990624, 0xf40e3585, 0x106aa070,
    0x19a4c116, 0x1e376c08, 0x2748774c, 0x34b0bcb5, 0x391c0cb3, 0x4ed8aa4a, 0x5b9cca4f, 0x682e6ff3,
    0x748f82ee, 0x78a5636f, 0x84c87814, 0x8cc70208, 0x90befffa, 0xa4506ceb, 0xbef9a3f7, 0xc67178f2
  ]

  // It is the standard's.
  lemma PageConstants()
    ensures PAGE_K == K && |K| == 64
  {
  }

  // ------------------------------------------------------------- loops

  // setUint32: four bytes, high one first.
  method SetUint32(view: array<Byte>, at: nat, value: int)
    requires at + 4 <= view.Length
    modifies view
    ensures view[..] == old(view[..at]) + BigEndian(ToUint32(value), 4) + old(view[at + 4..])
  {
    var word := ToUint32(value);
    view[at] := word / 0x100_0000;
    view[at + 1] := word / 0x1_0000 % 0x100;
    view[at + 2] := word / 0x100 % 0x100;
    view[at + 3] := word % 0x100;
    FourBytes(word);
  }

  lemma FourBytes(x: Word)
    ensures BigEndian(x, 4) == [x / 0x100_0000, x / 0x1_0000 % 0x100, x / 0x100 % 0x100, x % 0x100]
  {
    assert BigEndian(x, 4) == BigEndian(x / 0x100, 3) + [x % 0x100];
    assert BigEndian(x / 0x100, 3) == BigEndian(x / 0x100 / 0x100, 2) + [x / 0x100 % 0x100];
    assert BigEndian(x / 0x1_0000, 2) == BigEndian(x / 0x1_0000 / 0x100, 1) + [x / 0x1_0000 % 0x100];
    assert BigEndian(x / 0x100_0000, 1) == [] + [x / 0x100_0000 % 0x100];
  }

  // Math.ceil
  function Ceil(x: real): int { -((-x).Floor) }

  lemma CeilOfBlocks(n: nat)
    ensures Ceil((n + 9) as real / 64.0) * 64 == n + 9 + ZeroBytes(n)
  {
    var c := Ceil((n + 9) as real / 64.0);
    assert (c - 1) as real < (n + 9) as real / 64.0 <= c as real;
    assert 64 * (c - 1) < n + 9 <= 64 * c;
  }

  lemma LengthHalves(length: nat)
    ensures BigEndian(8 * length, 8)
      == BigEndian(ToUint32(8 * length / MODULUS), 4) + BigEndian(ToUint32(8 * length), 4)
  {
    var x := 8 * length;
    BigEndianSplits(x);
    LowBytesOnly(x);
    LowBytesOnly(x / MODULUS);
  }

  lemma BigEndianSplits(x: nat)
    ensures BigEndian(x, 8) == BigEndian(x / MODULUS, 4) + BigEndian(x, 4)
  {
    var y := x / 0x100;
    assert x / MODULUS == y / 0x100 / 0x100 / 0x100;
    assert BigEndian(x, 8) == BigEndian(y, 7) + [x % 0x100];
    assert BigEndian(y, 7) == BigEndian(y / 0x100, 6) + [y % 0x100];
    assert BigEndian(y / 0x100, 6) == BigEndian(y / 0x100 / 0x100, 5) + [y / 0x100 % 0x100];
    assert BigEndian(y / 0x100 / 0x100, 5) == BigEndian(x / MODULUS, 4) + [y / 0x100 / 0x100 % 0x100];
    assert BigEndian(x, 4) == BigEndian(y, 3) + [x % 0x100];
    assert BigEndian(y, 3) == BigEndian(y / 0x100, 2) + [y % 0x100];
    assert BigEndian(y / 0x100, 2) == BigEndian(y / 0x100 / 0x100, 1) + [y / 0x100 % 0x100];
    assert BigEndian(y / 0x100 / 0x100, 1) == [] + [y / 0x100 / 0x100 % 0x100];
  }

  // A multiple of 2^32 does not reach the low four bytes.
  lemma LowByte(x: nat, y: nat, q: nat)
    requires x == q * MODULUS + y
    ensures y % 0x100 == x % 0x100
    ensures y / 0x100 % 0x100 == x / 0x100 % 0x100
  {
    assert x / 0x100 == q * 0x100_0000 + y / 0x100;
  }

  lemma ThirdByte(x: nat, y: nat, q: nat)
    requires x == q * MODULUS + y
    ensures y / 0x1_0000 % 0x100 == x / 0x1_0000 % 0x100
  {
    assert x / 0x1_0000 == q * 0x1_0000 + y / 0x1_0000;
  }

  lemma HighByte(x: nat, y: nat, q: nat)
    requires x == q * MODULUS + y
    ensures y / 0x100_0000 % 0x100 == x / 0x100_0000 % 0x100
  {
    assert x / 0x100_0000 == q * 0x100 + y / 0x100_0000;
  }

  lemma LowBytesOnly(x: nat)
    ensures BigEndian(ToUint32(x), 4) == BigEndian(x, 4)
  {
    LowByte(x, ToUint32(x), x / MODULUS);
    ThirdByte(x, ToUint32(x), x / MODULUS);
    HighByte(x, ToUint32(x), x / MODULUS);
    LastFour(x);
    LastFour(ToUint32(x));
  }

  lemma LastFour(x: nat)
    ensures BigEndian(x, 4) == [x / 0x100_0000 % 0x100, x / 0x1_0000 % 0x100, x / 0x100 % 0x100, x % 0x100]
  {
    assert BigEndian(x, 4) == BigEndian(x / 0x100, 3) + [x % 0x100];
    assert BigEndian(x / 0x100, 3) == BigEndian(x / 0x100 / 0x100, 2) + [x / 0x100 % 0x100];
    assert BigEndian(x / 0x1_0000, 2) == BigEndian(x / 0x1_0000 / 0x100, 1) + [x / 0x1_0000 % 0x100];
    assert BigEndian(x / 0x100_0000, 1) == [] + [x / 0x100_0000 % 0x100];
  }

  // The two halves of the length.
  method SetLength(padded: array<Byte>, ghost n: nat, bitLength: nat)
    requires padded.Length >= 8 && bitLength == 8 * n
    modifies padded
    ensures padded[..] == old(padded[..padded.Length - 8]) + BigEndian(8 * n, 8)
  {
    SetUint32(padded, padded.Length - 8, bitLength / MODULUS);
    SetUint32(padded, padded.Length - 4, bitLength);
    LengthHalves(n);
  }

  // The first lines of the function: the padded copy.
  method Pad(bytes: array<Byte>) returns (padded: array<Byte>)
    ensures fresh(padded) && padded[..] == Padded(bytes[..])
  {
    var n := bytes.Length;
    CeilOfBlocks(n);
    padded := new Byte[Ceil((n + 9) as real / 64.0) * 64](_ => 0);
    forall i | 0 <= i < n {
      padded[i] := bytes[i];
    }
    padded[n] := 0x80;
    ghost var front := padded[..padded.Length - 8];
    SetLength(padded, n, n * 8);
    FrontAndLength(padded[..], bytes[..], front);
    SamePadding(padded[..], bytes[..]);
  }

  lemma FrontAndLength(p: Bytes, m: Bytes, front: Bytes)
    requires p == front + BigEndian(8 * |m|, 8) && |front| > |m|
    requires front[..|m|] == m && front[|m|] == 0x80 && forall i :: |m| < i < |front| ==> front[i] == 0
    ensures p[..|m|] == m && p[|m|] == 0x80 && p[|p| - 8..] == BigEndian(8 * |m|, 8)
    ensures forall i :: |m| < i < |p| - 8 ==> p[i] == 0
  {
  }

  lemma SamePadding(p: Bytes, m: Bytes)
    requires
      && |p| == |m| + 9 + ZeroBytes(|m|)
      && p[..|m|] == m && p[|m|] == 0x80
      && (forall i :: |m| < i < |p| - 8 ==> p[i] == 0)
      && p[|p| - 8..] == BigEndian(8 * |m|, 8)
    ensures p == Padded(m)
  {
    PaddedAt(m);
    SameParts(p, Padded(m), |m|, |p| - 8);
  }

  // Two byte strings with the same beginning, zeros and end.
  lemma SameParts(p: Bytes, q: Bytes, a: nat, b: nat)
    requires a < b <= |p| == |q| && p[..a] == q[..a] && p[a] == q[a] && p[b..] == q[b..]
    requires forall i :: a < i < b ==> p[i] == 0 && q[i] == 0
    ensures p == q
  {
    assert forall i :: 0 <= i < a ==> p[..a][i] == p[i] && q[..a][i] == q[i];
    assert forall i :: b <= i < |p| ==> p[b..][i - b] == p[i] && q[b..][i - b] == q[i];
  }

  // getUint32
  function GetUint32(view: array<Byte>, at: nat): Word
    requires at + 4 <= view.Length
    reads view
  {
    WordAt(view[..], at)
  }

  ghost predicate Scheduled(w: array<Word>, p: Bytes, offset: nat, n: nat)
    requires w.Length == 64 && offset + 64 <= |p| && n <= 64
    reads w
  {
    forall t :: 0 <= t < n ==> w[t] == Schedule(p, offset, t)
  }

  // The two loops that fill w.
  method FillSchedule(view: array<Byte>, offset: nat, w: array<Word>)
    requires w.Length == 64 && offset + 64 <= view.Length
    modifies w
    ensures Scheduled(w, view[..], offset, 64)
  {
    for i := 0 to 16
      invariant Scheduled(w, view[..], offset, i)
    {
      w[i] := GetUint32(view, offset + i * 4);
    }
    for i := 16 to 64
      invariant Scheduled(w, view[..], offset, i)
    {
      Extend(w, i, view[..], offset);
    }
  }

  // The body of the second.
  method Extend(w: array<Word>, i: nat, ghost p: Bytes, ghost offset: nat)
    requires w.Length == 64 && offset + 64 <= |p| && 16 <= i < 64 && Scheduled(w, p, offset, i)
    modifies w
    ensures Scheduled(w, p, offset, i + 1)
  {
    ghost var w16, w15, w7, w2 := w[i - 16], w[i - 15], w[i - 7], w[i - 2];
    var next := NextWord(w[i - 16], w[i - 15], w[i - 7], w[i - 2]);
    ScheduleUnfolds(p, offset, i, w16, w15, w7, w2);
    w[i] := next;
    assert Scheduled(w, p, offset, i);
  }

  method NextWord(w16: Word, w15: Word, w7: Word, w2: Word) returns (next: Word)
    ensures next == Add(Add(Add(Sigma1(w2), w7), Sigma0(w15)), w16)
  {
    var s0 := SmallSigma0(w15);
    var s1 := SmallSigma1(w2);
    next := SumOf4(w16, s0, w7, s1, Sigma0(w15), Sigma1(w2));
  }

  // The sum itself, stored in a Uint32Array.
  method SumOf4(w16: Word, s0: int, w7: Word, s1: int, ghost sigma0: Word, ghost sigma1: Word) returns (next: Word)
    requires Agrees(s0, sigma0) && Agrees(s1, sigma1)
    ensures next == Add(Add(Add(sigma1, w7), sigma0), w16)
  {
    next := ToUint32(JsAdd(JsAdd(JsAdd(w16, s0), w7), s1));
    ScheduleSum(w16, s0, w7, s1, sigma0, sigma1);
  }

  lemma ScheduleUnfolds(p: Bytes, offset: nat, i: nat, w16: Word, w15: Word, w7: Word, w2: Word)
    requires offset + 64 <= |p| && 16 <= i < 64
    requires w16 == Schedule(p, offset, i - 16) && w15 == Schedule(p, offset, i - 15)
    requires w7 == Schedule(p, offset, i - 7) && w2 == Schedule(p, offset, i - 2)
    ensures Schedule(p, offset, i) == Add(Add(Add(Sigma1(w2), w7), Sigma0(w15)), w16)
  {
  }

  // t1 and t2, and the two words made from them.
  method NewWords(d: Word, hh: Word, big1: int, ch: int, k: Word, w: Word, big0: int, maj: int,
                  ghost sigma1: Word, ghost choice: Word, ghost sigma0: Word, ghost majority: Word)
    returns (e: Word, a: Word)
    requires Agrees(big1, sigma1) && Agrees(ch, choice) && Agrees(big0, sigma0) && Agrees(maj, majority)
    ensures
      var t1 := Add(Add(Add(Add(hh, sigma1), choice), k), w);
      e == Add(d, t1) && a == Add(t1, Add(sigma0, majority))
  {
    var t1 := JsAdd(JsAdd(JsAdd(JsAdd(hh, big1), ch), k), w);
    var t2 := JsAdd(big0, maj);
    e := ToUint32(JsAdd(d, t1));
    a := ToUint32(JsAdd(t1, t2));
    T1Sum(hh, big1, ch, k, w, sigma1, choice);
    DelayedReduction(big0, maj);
    DelayedReduction(t1, t2);
    DelayedReduction(d, t1);
    WordIsItself(d);
  }

  // The body of the inner loop.
  method OneRound(a: Word, b: Word, c: Word, d: Word, e: Word, f: Word, g: Word, hh: Word, k: Word, w: Word)
    returns (a1: Word, b1: Word, c1: Word, d1: Word, e1: Word, f1: Word, g1: Word, h1: Word)
    ensures Vars(a1, b1, c1, d1, e1, f1, g1, h1) == Round(Vars(a, b, c, d, e, f, g, hh), k, w)
  {
    var big1 := Big1(e);
    var ch := Choose(e, f, g);
    var big0 := Big0(a);
    var maj := Majority(a, b, c);
    h1, g1, f1 := g, f, e;
    d1, c1, b1 := c, b, a;
    e1, a1 := NewWords(d, hh, big1, ch, k, w, big0, maj, BigSigma1(e), Ch(e, f, g), BigSigma0(a), Maj(a, b, c));
  }

  lemma RoundsUnfolds(v: Vars, p: Bytes, offset: nat, i: nat, k: Word, w: Word)
    requires offset + 64 <= |p| && i < 64 && |K| == 64 && k == K[i] && w == Schedule(p, offset, i)
    ensures Rounds(v, p, offset, i + 1) == Round(Rounds(v, p, offset, i), k, w)
  {
  }

  // The inner loop: 64 rounds over w.
  method Mix(w: array<Word>, a0: Word, b0: Word, c0: Word, d0: Word, e0: Word, f0: Word, g0: Word, h0: Word,
             ghost p: Bytes, ghost offset: nat)
    returns (a: Word, b: Word, c: Word, d: Word, e: Word, f: Word, g: Word, hh: Word)
    requires w.Length == 64 && offset + 64 <= |p| && Scheduled(w, p, offset, 64)
    ensures Vars(a, b, c, d, e, f, g, hh) == Rounds(Vars(a0, b0, c0, d0, e0, f0, g0, h0), p, offset, 64)
  {
    a, b, c, d, e, f, g, hh := a0, b0, c0, d0, e0, f0, g0, h0;
    ghost var v := Vars(a0, b0, c0, d0, e0, f0, g0, h0);
    PageConstants();
    for i := 0 to 64
      invariant Vars(a, b, c, d, e, f, g, hh) == Rounds(v, p, offset, i)
    {
      RoundsUnfolds(v, p, offset, i, K[i], w[i]);
      a, b, c, d, e, f, g, hh := OneRound(a, b, c, d, e, f, g, hh, PAGE_K[i], w[i]);
    }
  }

  ghost predicate Holds(h: array<Word>, v: Vars)
    requires h.Length == 8
    reads h
  {
    v == Vars(h[0], h[1], h[2], h[3], h[4], h[5], h[6], h[7])
  }

  // The last lines of the outer loop's body.
  method AddInto(h: array<Word>, a: Word, b: Word, c: Word, d: Word, e: Word, f: Word, g: Word, hh: Word, ghost v: Vars)
    requires h.Length == 8 && Holds(h, v)
    modifies h
    ensures Holds(h, Sum(Vars(a, b, c, d, e, f, g, hh), v))
  {
    h[0] := Plus(h[0], a);
    h[1] := Plus(h[1], b);
    h[2] := Plus(h[2], c);
    h[3] := Plus(h[3], d);
    h[4] := Plus(h[4], e);
    h[5] := Plus(h[5], f);
    h[6] := Plus(h[6], g);
    h[7] := Plus(h[7], hh);
  }

  // What `+=` stores in a Uint32Array.
  function Plus(stored: Word, more: Word): (r: Word)
    ensures r == Add(more, stored)
  {
    ToUint32(JsAdd(stored, more))
  }

  // The body of the outer loop.
  method Block(view: array<Byte>, offset: nat, w: array<Word>, h: array<Word>, ghost v: Vars)
    requires w.Length == 64 && h.Length == 8 && h != w && offset + 64 <= view.Length
    requires Holds(h, v)
    modifies w, h
    ensures Holds(h, Sum(Rounds(v, view[..], offset, 64), v))
  {
    FillSchedule(view, offset, w);
    var a, b, c, d, e, f, g, hh := Mix(w, h[0], h[1], h[2], h[3], h[4], h[5], h[6], h[7], view[..], offset);
    AddInto(h, a, b, c, d, e, f, g, hh, v);
  }

  lemma BytesOfNext(words: seq<Word>, i: nat)
    requires i < |words|
    ensures BytesOf(words[..i + 1]) == BytesOf(words[..i]) + BigEndian(words[i], 4)
  {
    assert words[..i + 1][..i] == words[..i];
  }

  // The words of the hash value, written into the output.
  method Output(h: array<Word>, ghost v: Vars) returns (out: array<Byte>)
    requires h.Length == 8 && Holds(h, v)
    ensures fresh(out) && out[..] == BytesOf(WordsOf(v))
  {
    out := new Byte[32](_ => 0);
    for i := 0 to 8
      invariant out[..4 * i] == BytesOf(h[..i])
    {
      BytesOfNext(h[..], i);
      assert h[..][..i] == h[..i] && h[..][..i + 1] == h[..i + 1];
      SetUint32(out, i * 4, h[i]);
      WordIsItself(h[i]);
    }
    assert h[..8] == WordsOf(v) && out[..32] == out[..];
  }

  lemma ChainUnfolds(p: Bytes, n: nat)
    requires 64 * (n + 1) <= |p|
    ensures Chain(p, n + 1) == Sum(Rounds(Chain(p, n), p, 64 * n, 64), Chain(p, n))
  {
  }

  method InitialWords() returns (h: array<Word>)
    ensures fresh(h) && h.Length == 8 && Holds(h, INITIAL)
  {
    h := new Word[8][0x6a09e667, 0xbb67ae85, 0x3c6ef372, 0xa54ff53a, 0x510e527f, 0x9b05688c, 0x1f83d9ab, 0x5be0cd19];
  }

  // The hash values after 0, 1, 2 and more blocks.
  ghost predicate AreChain(chain: seq<Vars>, p: Bytes) {
    |chain| == |p| / 64 + 1 && forall n {:trigger Chain(p, n)} :: 0 <= n <= |p| / 64 ==> chain[n] == Chain(p, n)
  }

  lemma {:induction false} ChainUpTo(p: Bytes, n: nat) returns (chain: seq<Vars>)
    requires n <= |p| / 64
    ensures |chain| == n + 1 && forall i {:trigger Chain(p, i)} :: 0 <= i <= n ==> chain[i] == Chain(p, i)
  {
    if n == 0 {
      chain := [INITIAL];
    } else {
      chain := ChainUpTo(p, n - 1);
      chain := chain + [Chain(p, n)];
    }
  }

  // One pass of the outer loop.
  method NextBlock(padded: array<Byte>, offset: nat, h: array<Word>, w: array<Word>,
                   ghost chain: seq<Vars>, ghost n: nat)
    requires w.Length == 64 && h.Length == 8 && h != w && offset == 64 * n && offset + 64 <= padded.Length
    requires AreChain(chain, padded[..]) && Holds(h, chain[n])
    modifies h, w
    ensures Holds(h, chain[n + 1])
  {
    ChainUnfolds(padded[..], n);
    Block(padded, offset, w, h, chain[n]);
  }

  // The outer loop.
  method HashBlocks(padded: array<Byte>, h: array<Word>, w: array<Word>, ghost chain: seq<Vars>)
    requires padded.Length % 64 == 0 && w.Length == 64 && h.Length == 8 && h != w
    requires AreChain(chain, padded[..]) && Holds(h, chain[0])
    modifies h, w
    ensures Holds(h, chain[padded.Length / 64])
  {
    var offset := 0;
    ghost var n := 0;
    while offset < padded.Length
      invariant 0 <= offset <= padded.Length && offset == 64 * n
      invariant Holds(h, chain[n])
    {
      NextBlock(padded, offset, h, w, chain, n);
      offset := offset + 64;
      n := n + 1;
    }
  }

  // Everything after the padding.
  method HashPadded(padded: array<Byte>, ghost chain: seq<Vars>) returns (out: array<Byte>)
    requires padded.Length % 64 == 0 && AreChain(chain, padded[..]) && chain[0] == INITIAL
    ensures fresh(out) && out[..] == BytesOf(WordsOf(chain[padded.Length / 64]))
  {
    var h := InitialWords();
    var w := new Word[64](_ => 0);
    HashBlocks(padded, h, w, chain);
    out := Output(h, chain[padded.Length / 64]);
  }

  // For every byte array, the page's sha256 is the standard's.
  method Sha256(bytes: array<Byte>) returns (out: array<Byte>)
    ensures out[..] == Fips.Sha256(bytes[..])
  {
    var padded := Pad(bytes);
    ghost var p := padded[..];
    PaddedAt(bytes[..]);
    ghost var chain := ChainUpTo(p, |p| / 64);
    assert chain[0] == Chain(p, 0);
    out := HashPadded(padded, chain);
  }
}

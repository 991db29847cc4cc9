// SHA-256 as FIPS 180-4 defines it, on byte strings. Section numbers are the
// standard's.
module Fips {
  import opened Words

  type Bytes = seq<Byte>

  // 4.2.2
  const K: seq<Word> := [
    0x428a2f98, 0x71374491, 0xb5c0fbcf, 0xe9b5dba5, 0x3956c25b, 0x59f111f1, 0x923f82a4, 0xab1c5ed5,
    0xd807aa98, 0x12835b01, 0x243185be, 0x550c7dc3, 0x72be5d74, 0x80deb1fe, 0x9bdc06a7, 0xc19bf174,
    0xe49b69c1, 0xefbe4786, 0x0fc19dc6, 0x240ca1cc, 0x2de92c6f, 0x4a7484aa, 0x5cb0a9dc, 0x76f988da,
    0x983e5152, 0xa831c66d, 0xb00327c8, 0xbf597fc7, 0xc6e00bf3, 0xd5a79147, 0x06ca6351, 0x14292967,
    0x27b70a85, 0x2e1b2138, 0x4d2c6dfc, 0x53380d13, 0x650a7354, 0x766a0abb, 0x81c2c92e, 0x92722c85,
    0xa2bfe8a1, 0xa81a664b, 0xc24b8b70, 0xc76c51a3, 0xd192e819, 0xd6990624, 0xf40e3585, 0x106aa070,
    0x19a4c116, 0x1e376c08, 0x2748774c, 0x34b0bcb5, 0x391c0cb3, 0x4ed8aa4a, 0x5b9cca4f, 0x682e6ff3,
    0x748f82ee, 0x78a5636f, 0x84c87814, 0x8cc70208, 0x90befffa, 0xa4506ceb, 0xbef9a3f7, 0xc67178f2
  ]

  lemma ThereAre64Constants()
    ensures |K| == 64
  {
  }

  // The eight working variables, and the hash value of the same shape.
  datatype Vars = Vars(a: Word, b: Word, c: Word, d: Word, e: Word, f: Word, g: Word, h: Word)

  // 5.3.3
  const INITIAL := Vars(0x6a09e667, 0xbb67ae85, 0x3c6ef372, 0xa54ff53a, 0x510e527f, 0x9b05688c, 0x1f83d9ab, 0x5be0cd19)

  // 4.1.2
  function Ch(x: Word, y: Word, z: Word): Word { Xor(And(x, y), And(Not(x), z)) }

  function Maj(x: Word, y: Word, z: Word): Word { Xor(Xor(And(x, y), And(x, z)), And(y, z)) }

  function BigSigma0(x: Word): Word { Xor(Xor(Rotr(x, 2), Rotr(x, 13)), Rotr(x, 22)) }

  function BigSigma1(x: Word): Word { Xor(Xor(Rotr(x, 6), Rotr(x, 11)), Rotr(x, 25)) }

  function Sigma0(x: Word): Word { Xor(Xor(Rotr(x, 7), Rotr(x, 18)), Shr(x, 3)) }

  function Sigma1(x: Word): Word { Xor(Xor(Rotr(x, 17), Rotr(x, 19)), Shr(x, 10)) }

  // A number in n big-endian bytes.
  function BigEndian(x: nat, n: nat): (r: Bytes)
    ensures |r| == n
  {
    if n == 0 then [] else BigEndian(x / 0x100, n - 1) + [x % 0x100]
  }

  // The number that bytes spell, high byte first.
  function Spelled(bytes: Bytes): nat {
    if bytes == [] then 0 else 0x100 * Spelled(bytes[..|bytes| - 1]) + bytes[|bytes| - 1]
  }

  lemma {:induction false} SpelledBigEndian(x: nat, n: nat)
    requires x < Pow2(8 * n)
    ensures Spelled(BigEndian(x, n)) == x
    decreases n
  {
    if n == 0 {
    } else {
      assert Pow2(8 * n) == 0x100 * Pow2(8 * (n - 1)) by {
        Pow2Of8(8 * (n - 1));
      }
      SpelledBigEndian(x / 0x100, n - 1);
      assert BigEndian(x, n)[..n - 1] == BigEndian(x / 0x100, n - 1);
    }
  }

  lemma Pow2Of8(n: nat)
    ensures Pow2(n + 8) == 0x100 * Pow2(n)
  {
    assert Pow2(n + 1) == 2 * Pow2(n);
    assert Pow2(n + 2) == 2 * Pow2(n + 1);
    assert Pow2(n + 3) == 2 * Pow2(n + 2);
    assert Pow2(n + 4) == 2 * Pow2(n + 3);
    assert Pow2(n + 5) == 2 * Pow2(n + 4);
    assert Pow2(n + 6) == 2 * Pow2(n + 5);
    assert Pow2(n + 7) == 2 * Pow2(n + 6);
  }

  // 5.1.1, in bytes: how many zero bytes follow the byte that holds the 1 bit.
  function ZeroBytes(length: nat): nat { (55 - length) % 64 }

  function Zeros(n: nat): (r: Bytes)
    ensures |r| == n && forall i :: 0 <= i < n ==> r[i] == 0
  {
    if n == 0 then [] else Zeros(n - 1) + [0]
  }

  function Padded(m: Bytes): Bytes {
    m + [0x80] + Zeros(ZeroBytes(|m|)) + BigEndian(8 * |m|, 8)
  }

  // What 5.1.1 asks for: a multiple of 512 bits, no longer than needed, which
  // ends in the length of the message in bits.
  lemma PaddingIsRight(m: Bytes)
    requires 8 * |m| < Pow2(64)
    ensures
      var p := Padded(m);
      && |p| % 64 == 0 && |m| + 9 <= |p| && NoLongerThan(|p|, |m| + 9)
      && p[..|m|] == m && p[|m|] == 0x80
      && (forall i :: |m| < i < |p| - 8 ==> p[i] == 0)
      && Spelled(p[|p| - 8..]) == 8 * |m|
  {
    PaddedAt(m);
    SpelledBigEndian(8 * |m|, 8);
    LeastMultiple(|m|);
  }

  // No multiple of 64 from `least` on is smaller.
  ghost predicate NoLongerThan(size: nat, least: nat) { forall n :: least <= n && n % 64 == 0 ==> size <= n }

  lemma LeastMultiple(length: nat)
    ensures NoLongerThan(length + 9 + ZeroBytes(length), length + 9)
  {
  }

  lemma PaddedAt(m: Bytes)
    ensures
      var p := Padded(m);
      && |p| == |m| + 9 + ZeroBytes(|m|) && |p| % 64 == 0
      && p[..|m|] == m && p[|m|] == 0x80
      && (forall i :: |m| < i < |p| - 8 ==> p[i] == 0)
      && p[|p| - 8..] == BigEndian(8 * |m|, 8)
  {
    var p, zeros := Padded(m), Zeros(ZeroBytes(|m|));
    assert forall i :: |m| < i < |p| - 8 ==> p[i] == zeros[i - |m| - 1];
  }

  // 5.2.1: the i-th word of a padded message.
  function WordAt(p: Bytes, i: nat): Word
    requires i + 4 <= |p|
  {
    var b0: int, b1: int, b2: int, b3: int := p[i], p[i + 1], p[i + 2], p[i + 3];
    0x100_0000 * b0 + 0x1_0000 * b1 + 0x100 * b2 + b3
  }

  // 6.2.2 step 1: word t of the message schedule of the block at `offset`.
  function Schedule(p: Bytes, offset: nat, t: nat): Word
    requires offset + 64 <= |p| && t < 64
    decreases t
  {
    if t < 16 then WordAt(p, offset + 4 * t)
    else
      Add(Add(Add(Sigma1(Schedule(p, offset, t - 2)), Schedule(p, offset, t - 7)),
              Sigma0(Schedule(p, offset, t - 15))),
          Schedule(p, offset, t - 16))
  }

  // 6.2.2 step 3
  function Round(v: Vars, k: Word, w: Word): Vars {
    var t1 := Add(Add(Add(Add(v.h, BigSigma1(v.e)), Ch(v.e, v.f, v.g)), k), w);
    var t2 := Add(BigSigma0(v.a), Maj(v.a, v.b, v.c));
    Vars(Add(t1, t2), v.a, v.b, v.c, Add(v.d, t1), v.e, v.f, v.g)
  }

  function Rounds(v: Vars, p: Bytes, offset: nat, t: nat): Vars
    requires offset + 64 <= |p| && t <= 64
  {
    if t == 0 then v
    else
      ThereAre64Constants();
      Round(Rounds(v, p, offset, t - 1), K[t - 1], Schedule(p, offset, t - 1))
  }

  // 6.2.2 step 4
  function Sum(x: Vars, y: Vars): Vars {
    Vars(Add(x.a, y.a), Add(x.b, y.b), Add(x.c, y.c), Add(x.d, y.d),
         Add(x.e, y.e), Add(x.f, y.f), Add(x.g, y.g), Add(x.h, y.h))
  }

  // The hash value after the first n blocks.
  function Chain(p: Bytes, n: nat): Vars
    requires 64 * n <= |p|
  {
    if n == 0 then INITIAL
    else
      var h := Chain(p, n - 1);
      Sum(Rounds(h, p, 64 * (n - 1), 64), h)
  }

  function WordsOf(v: Vars): (r: seq<Word>)
    ensures |r| == 8
  {
    [v.a, v.b, v.c, v.d, v.e, v.f, v.g, v.h]
  }

  function BytesOf(words: seq<Word>): (r: Bytes)
    ensures |r| == 4 * |words|
  {
    if words == [] then [] else BytesOf(words[..|words| - 1]) + BigEndian(words[|words| - 1], 4)
  }

  // The digest.
  function Sha256(m: Bytes): (r: Bytes)
    ensures |r| == 32
  {
    BytesOf(WordsOf(Chain(Padded(m), |Padded(m)| / 64)))
  }
}

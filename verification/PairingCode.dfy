// The code both sides show on first pairing (host/src/pairing.rs and
// client/pairing.mjs).
module PairingCode {
  import opened Wrappers
  import Sdp
  import opened Words
  import Utf8
  import Fips
  import Sha256Code

  // ------------------------------------------------------------- the text that is hashed

  const PREFIX := "remotebridge pairing v1\n"

  function Text(host: string, viewer: string): string { PREFIX + host + "\n" + viewer }

  lemma SplitAtNewline(a: string, b: string, c: string, d: string)
    requires '\n' !in a && '\n' !in c && a + "\n" + b == c + "\n" + d
    ensures a == c && b == d
  {
    var s := a + "\n" + b;
    assert s[|a|] == '\n' && s[|c|] == '\n';
    assert forall i :: 0 <= i < |a| ==> s[i] == a[i] && a[i] != '\n';
    assert forall i :: 0 <= i < |c| ==> s[i] == c[i] && c[i] != '\n';
    assert |a| == |c|;
    assert a == s[..|a|] && c == s[..|c|] && b == s[|a| + 1..] && d == s[|c| + 1..];
  }

  // The text determines both fingerprints, so different pairs hash different
  // bytes: the host's fingerprint has no newline in it.
  lemma HashedTextDeterminesThePair(host: string, viewer: string, host1: string, viewer1: string)
    requires '\n' !in host && '\n' !in host1
    ensures Utf8.Encode(Text(host, viewer)) == Utf8.Encode(Text(host1, viewer1)) <==> host == host1 && viewer == viewer1
  {
    var a, b := Text(host, viewer), Text(host1, viewer1);
    if Utf8.Encode(a) == Utf8.Encode(b) {
      Utf8.EncodeIsInjective(a, b);
      assert a[|PREFIX|..] == host + "\n" + viewer && b[|PREFIX|..] == host1 + "\n" + viewer1;
      SplitAtNewline(host, viewer, host1, viewer1);
    }
  }

  // A fingerprint that either parser found in some document.
  ghost predicate Parsed(jsLower: Sdp.JsLower, sdp: string, fingerprint: string) {
    Sdp.RustFingerprint(sdp) == Some(fingerprint) || Sdp.JsFingerprint(jsLower, sdp) == Some(fingerprint)
  }

  // Fingerprints come from the parsers, so the text always determines the pair.
  lemma ParsedPairsHashApart(
    jsLower: Sdp.JsLower,
    sdp: string, host: string, viewer: string,
    sdp1: string, host1: string, viewer1: string)
    requires Sdp.LowersLikeJs(jsLower) && Parsed(jsLower, sdp, host) && Parsed(jsLower, sdp1, host1)
    ensures Utf8.Encode(Text(host, viewer)) == Utf8.Encode(Text(host1, viewer1)) <==> host == host1 && viewer == viewer1
  {
    Sdp.FingerprintHasNoBreak(jsLower, sdp, host);
    Sdp.FingerprintHasNoBreak(jsLower, sdp1, host1);
    HashedTextDeterminesThePair(host, viewer, host1, viewer1);
  }

  // With a newline in the host's fingerprint that would fail.
  lemma NewlineWouldConfuse()
    ensures Text("a\nb", "c") == Text("a", "b\nc")
  {
    assert "a\nb" + "\n" + "c" == "a" + "\n" + "b\nc";
    assert Text("a\nb", "c") == PREFIX + ("a\nb" + "\n" + "c");
    assert Text("a", "b\nc") == PREFIX + ("a" + "\n" + "b\nc");
  }

  // The two sides hash the same bytes exactly when they lowercase alike.
  lemma SidesHashTheSameExactlyWhen(jsLower: Sdp.JsLower, host: string, viewer: string)
    requires '\n' !in host && '\n' !in jsLower(host)
    ensures
      Utf8.Encode(Text(jsLower(host), jsLower(viewer))) == Utf8.Encode(Text(Sdp.Lower(host), Sdp.Lower(viewer)))
      <==> jsLower(host) == Sdp.Lower(host) && jsLower(viewer) == Sdp.Lower(viewer)
  {
    Sdp.LowerKeepsSpaces(host);
    HashedTextDeterminesThePair(jsLower(host), jsLower(viewer), Sdp.Lower(host), Sdp.Lower(viewer));
  }

  // ------------------------------------------------------------- the bits

  // The top 60 bits of a digest.
  function TopBits(digest: Fips.Bytes): nat
    requires |digest| == 32
  {
    Fips.Spelled(digest[..8]) / 16
  }

  lemma {:induction false} SpelledIsBelow(bytes: Fips.Bytes)
    ensures Fips.Spelled(bytes) < Pow2(8 * |bytes|)
    decreases |bytes|
  {
    if bytes == [] {
    } else {
      SpelledIsBelow(bytes[..|bytes| - 1]);
      Fips.Pow2Of8(8 * (|bytes| - 1));
    }
  }

  // An OR with zeros, and into the empty low bits, is an addition.
  lemma {:induction false} OrNothing(x: nat, n: nat)
    requires x < Pow2(n)
    ensures Bitwise(OrBits, x, 0, n) == x
    decreases n
  {
    if n == 0 {
    } else {
      OrNothing(x / 2, n - 1);
    }
  }

  lemma {:induction false} OrIntoLowBits(x: nat, y: nat, k: nat, n: nat)
    requires y < Pow2(k) && k <= n && x * Pow2(k) + y < Pow2(n)
    ensures Bitwise(OrBits, x * Pow2(k), y, n) == x * Pow2(k) + y
    decreases k
  {
    if k == 0 {
      OrNothing(x, n);
    } else {
      var z := x * Pow2(k);
      assert z == 2 * (x * Pow2(k - 1));
      assert z / 2 == x * Pow2(k - 1) && z % 2 == 0;
      assert x * Pow2(k - 1) + y / 2 < Pow2(n - 1);
      OrIntoLowBits(x, y / 2, k - 1, n - 1);
    }
  }

  lemma {:induction false} MaskIsRemainder(x: nat, n: nat)
    requires n >= 5
    ensures Bitwise(AndBits, x, 31, n) == x % 32
  {
    AndOnes(x, 5, n);
    assert Pow2(5) == 32;
  }

  lemma {:induction false} AndOnes(x: nat, k: nat, n: nat)
    requires k <= n
    ensures Bitwise(AndBits, x, Pow2(k) - 1, n) == x % Pow2(k)
    decreases n
  {
    if k == 0 {
      AndNothing(x, n);
    } else {
      AndOnes(x / 2, k - 1, n - 1);
      HalfOfRemainder(x, k);
      assert (Pow2(k) - 1) / 2 == Pow2(k - 1) - 1 && (Pow2(k) - 1) % 2 == 1;
    }
  }

  lemma {:induction false} AndNothing(x: nat, n: nat)
    ensures Bitwise(AndBits, x, 0, n) == 0
    decreases n
  {
    if n == 0 {
    } else {
      AndNothing(x / 2, n - 1);
    }
  }

  lemma {:induction false} ShrAdds(x: nat, m: nat, n: nat)
    ensures Shr(x, m + n) == Shr(Shr(x, m), n)
    decreases m
  {
    if m == 0 {
    } else {
      ShrAdds(x / 2, m - 1, n);
    }
  }

  lemma ShrBy4(x: nat)
    ensures Shr(x, 4) == x / 16
  {
    assert Shr(x, 4) == Shr(x / 2, 3) == Shr(x / 2 / 2, 2) == Shr(x / 2 / 2 / 2, 1) == Shr(x / 2 / 2 / 2 / 2, 0);
  }

  lemma ShrBy5(x: nat)
    ensures Shr(x, 5) == x / 32
  {
    assert Shr(x, 5) == Shr(x / 2, 4);
    ShrBy4(x / 2);
  }

  lemma {:induction false} ShrToNothing(x: nat, n: nat)
    requires x < Pow2(n)
    ensures Shr(x, n) == 0
    decreases n
  {
    if n == 0 {
    } else {
      ShrToNothing(x / 2, n - 1);
    }
  }

  // ------------------------------------------------------------- the code

  // Crockford base32
  const ALPHABET := "0123456789ABCDEFGHJKMNPQRSTVWXYZ"

  // The number a code stands for: its characters are base-32 digits, and the
  // dashes only separate them.
  function Value(code: string): nat {
    if code == [] then 0
    else
      var front, last := code[..|code| - 1], code[|code| - 1];
      if last == '-' then Value(front) else 32 * Value(front) + Place(last)
  }

  predicate IsDigit(c: char) { c in ALPHABET && c != '-' }

  // Where a digit stands in the alphabet.
  function Place(c: char): (d: nat)
    ensures IsDigit(c) ==> d < 32 && |ALPHABET| == 32 && ALPHABET[d] == c
  {
    var d := Sdp.IndexOf(ALPHABET, c);
    assert d == |ALPHABET| ==> ALPHABET[..d] == ALPHABET;
    d
  }

  // "XXXX-XXXX-XXXX", or the start of one.
  ghost predicate Laid(code: string) {
    && |code| <= 14
    && forall i :: 0 <= i < |code| ==> if i == 4 || i == 9 then code[i] == '-' else IsDigit(code[i])
  }

  // The code of 60 bits.
  ghost predicate IsCode(code: string, bits: nat) { |code| == 14 && Laid(code) && Value(code) == bits }

  lemma AlphabetAscends(i: nat)
    requires i < 31
    ensures |ALPHABET| == 32 && ALPHABET[i] < ALPHABET[i + 1]
  {
    if i < 16 {
    } else {
    }
  }

  lemma {:induction false} AlphabetIsSorted(i: nat, j: nat)
    requires i < j < 32
    ensures |ALPHABET| == 32 && ALPHABET[i] < ALPHABET[j]
    decreases j
  {
    AlphabetAscends(j - 1);
    if i < j - 1 {
      AlphabetIsSorted(i, j - 1);
    }
  }

  // Every digit stands for its place, and is not a dash.
  lemma DigitRoundTrip(d: nat)
    requires d < 32
    ensures |ALPHABET| == 32 && Place(ALPHABET[d]) == d && IsDigit(ALPHABET[d])
  {
    AlphabetAscends(0);
    var i := Place(ALPHABET[d]);
    assert i <= d by {
      InPrefix(ALPHABET, d, i);
    }
    if i < d {
      AlphabetIsSorted(i, d);
    }
    if d > 0 {
      AlphabetIsSorted(0, d);
    }
  }

  lemma InPrefix(s: string, d: nat, i: nat)
    requires d < |s| && i <= |s|
    ensures i > d ==> s[d] in s[..i]
  {
    if i > d {
      assert s[..i][d] == s[d];
    }
  }

  // Equal-length codes of the same number are the same.
  lemma {:induction false} CodeIsUnique(a: string, b: string)
    requires |a| == |b| && Laid(a) && Laid(b) && Value(a) == Value(b)
    ensures a == b
    decreases |a|
  {
    if a == [] {
    } else {
      var n := |a| - 1;
      SameEnds(a, b, n);
      CodeIsUnique(a[..n], b[..n]);
      SameAgain(a, b, n);
    }
  }

  lemma SameEnds(a: string, b: string, n: nat)
    requires |a| == |b| == n + 1 && Laid(a) && Laid(b) && Value(a) == Value(b)
    ensures a[n] == b[n] && Laid(a[..n]) && Laid(b[..n]) && Value(a[..n]) == Value(b[..n])
  {
    if n != 4 && n != 9 {
      SameDigit(Value(a[..n]), Place(a[n]), Value(b[..n]), Place(b[n]));
    }
  }

  lemma SameAgain(a: string, b: string, n: nat)
    requires |a| == |b| == n + 1 && a[..n] == b[..n] && a[n] == b[n]
    ensures a == b
  {
    assert a == a[..n] + [a[n]] && b == b[..n] + [b[n]];
  }

  lemma SameDigit(x: nat, i: nat, y: nat, j: nat)
    requires i < 32 && j < 32 && 32 * x + i == 32 * y + j
    ensures x == y && i == j
  {
  }

  // How long the code is after i digits.
  function Length(i: nat): nat { if i == 0 then 0 else i + (i - 1) / 4 }

  // The code so far, after i digits.
  ghost predicate Written(code: string, bits: nat, i: nat)
    requires i <= 12
  {
    |code| == Length(i) && Laid(code) && Value(code) == Shr(bits, 60 - 5 * i)
  }

  function Dashed(code: string, i: nat): string { if i > 0 && i % 4 == 0 then code + "-" else code }

  lemma AppendDash(code: string)
    requires Laid(code) && (|code| == 4 || |code| == 9)
    ensures Laid(code + "-") && Value(code + "-") == Value(code)
  {
    assert (code + "-")[..|code|] == code;
  }

  lemma Dash(code: string, i: nat)
    requires i < 12 && |code| == Length(i) && Laid(code)
    ensures
      var dashed := Dashed(code, i);
      && |dashed| + 1 == Length(i + 1) && |dashed| != 4 && |dashed| != 9
      && Laid(dashed) && Value(dashed) == Value(code)
  {
    assert i > 0 && i % 4 == 0 <==> i == 4 || i == 8;
    if i == 4 || i == 8 {
      AppendDash(code);
    }
  }

  lemma AppendDigit(code: string, d: nat)
    requires Laid(code) && |code| < 14 && |code| != 4 && |code| != 9 && d < 32
    ensures |ALPHABET| == 32 && Laid(code + [ALPHABET[d]]) && Value(code + [ALPHABET[d]]) == 32 * Value(code) + d
  {
    DigitRoundTrip(d);
    assert (code + [ALPHABET[d]])[..|code|] == code;
  }

  // (bits >> (55 - 5 * i)) & 31
  function Digit(bits: nat, i: nat): nat
    requires i < 12
  {
    Bitwise(AndBits, Shr(bits, 55 - 5 * i), 31, 64)
  }

  lemma NextDigit(bits: nat, i: nat)
    requires i < 12
    ensures Digit(bits, i) < 32 && 32 * Shr(bits, 60 - 5 * i) + Digit(bits, i) == Shr(bits, 60 - 5 * (i + 1))
  {
    var x := Shr(bits, 55 - 5 * i);
    MaskIsRemainder(x, 64);
    ShrAdds(bits, 55 - 5 * i, 5);
    ShrBy5(x);
  }

  // One pass of either loop.
  lemma DigitWritten(code: string, bits: nat, i: nat)
    requires i < 12 && Written(code, bits, i)
    ensures
      var index := Digit(bits, i);
      index < 32 && |ALPHABET| == 32 && Written(Dashed(code, i) + [ALPHABET[index]], bits, i + 1)
  {
    NextDigit(bits, i);
    Dash(code, i);
    AppendDigit(Dashed(code, i), Digit(bits, i));
  }

  lemma NothingWritten(bits: nat)
    requires bits < Pow2(60)
    ensures Written("", bits, 0)
  {
    ShrToNothing(bits, 60);
  }

  lemma TopBitsFit(digest: Fips.Bytes)
    requires |digest| == 32
    ensures TopBits(digest) < Pow2(60)
  {
    SpelledIsBelow(digest[..8]);
    assert Pow2(64) == 2 * Pow2(63) && Pow2(63) == 2 * Pow2(62) && Pow2(62) == 2 * Pow2(61) && Pow2(61) == 2 * Pow2(60);
  }

  function RustDigest(host: string, viewer: string): (r: Fips.Bytes)
    ensures |r| == 32
  {
    Fips.Sha256(Utf8.Encode(Text(Sdp.Lower(host), Sdp.Lower(viewer))))
  }

  function JsDigest(jsLower: Sdp.JsLower, host: string, viewer: string): (r: Fips.Bytes)
    ensures |r| == 32
  {
    Fips.Sha256(Utf8.Encode(Text(jsLower(host), jsLower(viewer))))
  }

  lemma TextsConcatenate(host: string, viewer: string)
    ensures Utf8.Encode(Text(host, viewer))
      == Utf8.Encode(PREFIX) + Utf8.Encode(host) + Utf8.Encode("\n") + Utf8.Encode(viewer)
  {
    Utf8.EncodeAppend(PREFIX, host);
    Utf8.EncodeAppend(PREFIX + host, "\n");
    Utf8.EncodeAppend(PREFIX + host + "\n", viewer);
  }

  // `pairing_code`: the hasher is fed piece by piece.
  method RustPairingCode(host: string, viewer: string) returns (code: string)
    ensures IsCode(code, TopBits(RustDigest(host, viewer)))
  {
    var fed := Utf8.Encode(PREFIX);
    fed := fed + Utf8.Encode(Sdp.Lower(host));
    fed := fed + Utf8.Encode("\n");
    fed := fed + Utf8.Encode(Sdp.Lower(viewer));
    TextsConcatenate(Sdp.Lower(host), Sdp.Lower(viewer));
    var digest := Fips.Sha256(fed);
    var bits := Shr(Fips.Spelled(digest[..8]), 4);
    ShrBy4(Fips.Spelled(digest[..8]));
    TopBitsFit(digest);
    NothingWritten(bits);
    code := "";
    for i := 0 to 12
      invariant Written(code, bits, i)
    {
      DigitWritten(code, bits, i);
      if i > 0 && i % 4 == 0 {
        code := code + "-";
      }
      var index := Digit(bits, i);
      code := code + [ALPHABET[index]];
    }
  }

  // The first loop of `pairingCode`: eight bytes, shifted in from the right.
  method TopBytes(digest: array<Byte>) returns (bits: nat)
    requires digest.Length == 32
    ensures bits == Fips.Spelled(digest[..8])
  {
    bits := 0;
    for i := 0 to 8
      invariant bits == Fips.Spelled(digest[..i])
    {
      assert digest[..i + 1][..i] == digest[..i];
      SpelledIsBelow(digest[..i + 1]);
      Pow2Grows(8 * (i + 1), 64);
      assert Pow2(8) == 0x100;
      OrIntoLowBits(bits, digest[i], 8, 64);
      bits := Bitwise(OrBits, bits * 0x100, digest[i], 64);
    }
  }

  lemma {:induction false} Pow2Grows(m: nat, n: nat)
    requires m <= n
    ensures Pow2(m) <= Pow2(n)
    decreases n
  {
    if m < n {
      Pow2Grows(m, n - 1);
    }
  }

  // `pairingCode`
  method JsPairingCode(jsLower: Sdp.JsLower, host: string, viewer: string) returns (code: string)
    ensures IsCode(code, TopBits(JsDigest(jsLower, host, viewer)))
  {
    var input := Utf8.EncodeText(Text(jsLower(host), jsLower(viewer)));
    var digest := Sha256Code.Sha256(input);
    var bits := TopBytes(digest);
    ShrBy4(bits);
    TopBitsFit(digest[..]);
    assert digest[..][..8] == digest[..8];
    bits := Shr(bits, 4);
    NothingWritten(bits);
    code := "";
    for i := 0 to 12
      invariant Written(code, bits, i)
    {
      DigitWritten(code, bits, i);
      if i > 0 && i % 4 == 0 {
        code := code + "-";
      }
      var index := Digit(bits, i);
      code := code + [ALPHABET[index]];
    }
  }

  // Two sides that lowercase the fingerprints alike show the same code; those
  // that do not hash different bytes (SidesHashTheSameExactlyWhen).
  lemma CodesAgree(jsLower: Sdp.JsLower, host: string, viewer: string, rust: string, js: string)
    requires jsLower(host) == Sdp.Lower(host) && jsLower(viewer) == Sdp.Lower(viewer)
    requires IsCode(rust, TopBits(RustDigest(host, viewer))) && IsCode(js, TopBits(JsDigest(jsLower, host, viewer)))
    ensures rust == js
  {
    CodeIsUnique(rust, js);
  }

  // On ASCII, which is all that fingerprints of certificates have, they always
  // do.
  lemma CodesAgreeOnAscii(jsLower: Sdp.JsLower, host: string, viewer: string, rust: string, js: string)
    requires Sdp.LowersAscii(jsLower) && Sdp.IsAscii(host) && Sdp.IsAscii(viewer)
    requires IsCode(rust, TopBits(RustDigest(host, viewer))) && IsCode(js, TopBits(JsDigest(jsLower, host, viewer)))
    ensures rust == js
  {
    CodesAgree(jsLower, host, viewer, rust, js);
  }
}

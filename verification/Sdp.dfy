// The SDP fingerprint parsers, written once in Rust for the host and once in
// JavaScript for the page. Characters outside ASCII are never white space here.
module Sdp {
  import opened Wrappers

  // ------------------------------------------------------- text primitives

  predicate IsSpace(c: char) { '\t' <= c <= '\r' || c == ' ' }

  function LowerChar(c: char): char {
    if 'A' <= c <= 'Z' then (c as int + 32) as char else c
  }

  function Lower(s: string): (r: string)
    ensures |r| == |s|
    ensures forall i :: 0 <= i < |s| ==> r[i] == LowerChar(s[i])
  {
    if s == [] then [] else [LowerChar(s[0])] + Lower(s[1..])
  }

  // Lowercasing in JavaScript: String.prototype.toLowerCase maps more than
  // ASCII, so it is a parameter.
  type JsLower = string -> string

  predicate IsAscii(s: string) { forall i :: 0 <= i < |s| ==> (s[i] as int) < 0x80 }

  ghost predicate LowersAscii(jsLower: JsLower) {
    forall s {:trigger IsAscii(s)} :: IsAscii(s) ==> jsLower(s) == Lower(s)
  }

  // What is known of it: on ASCII it is the host's; nothing outside ASCII
  // becomes a letter of "sha-256" or white space; white space stays as it is.
  ghost predicate LowersLikeJs(jsLower: JsLower) { forall s :: LowersIt(jsLower, s) }

  ghost predicate LowersIt(jsLower: JsLower, s: string) {
    && (IsAscii(s) ==> jsLower(s) == Lower(s))
    && (jsLower(s) == "sha-256" ==> IsAscii(s))
    && (forall c :: IsSpace(c) ==> (c in jsLower(s) <==> c in s))
    && (s != "" && IsSpace(s[0]) ==> jsLower(s) != "" && jsLower(s)[0] == s[0])
  }

  // First position of `c`, |s| when there is none.
  function IndexOf(s: string, c: char): (i: nat)
    ensures i <= |s|
    ensures i < |s| ==> s[i] == c
    ensures c !in s[..i]
  {
    if s == [] || s[0] == c then 0
    else
      var i := IndexOf(s[1..], c);
      assert s[..i + 1] == [s[0]] + s[1..][..i];
      i + 1
  }

  function TrimStart(s: string): (r: string)
    ensures r != [] ==> !IsSpace(r[0])
    ensures s != [] && !IsSpace(s[|s| - 1]) ==> r != [] && r[|r| - 1] == s[|s| - 1]
  {
    if s == [] || !IsSpace(s[0]) then s else TrimStart(s[1..])
  }

  function TrimEnd(s: string): (r: string)
    ensures r != [] ==> !IsSpace(r[|r| - 1])
  {
    if s == [] || !IsSpace(s[|s| - 1]) then s else TrimEnd(s[..|s| - 1])
  }

  function Trim(s: string): (r: string)
    ensures r != [] ==> !IsSpace(r[0]) && !IsSpace(r[|r| - 1])
  {
    TrimStart(TrimEnd(s))
  }

  // `str::lines`: a final empty piece is not a line, and the '\r' of a
  // "\r\n" belongs to the line ending.
  function RustLines(s: string): seq<string> {
    if s == [] then []
    else
      var i := IndexOf(s, '\n');
      if i == |s| then [s]
      else [if i > 0 && s[i - 1] == '\r' then s[..i - 1] else s[..i]] + RustLines(s[i + 1..])
  }

  // `split("\n")`
  function JsLines(s: string): seq<string> {
    var i := IndexOf(s, '\n');
    if i == |s| then [s] else [s[..i]] + JsLines(s[i + 1..])
  }

  // ------------------------------------------------------------- one line

  const PREFIX := "a=fingerprint:"

  // What a parser makes of one line: not a fingerprint line, a reason to give
  // up, or a value.
  datatype Reading = Other | Refused | Value(value: string)

  // What follows the prefix, on a fingerprint line.
  function AfterPrefix(line: string): (r: Option<string>)
    ensures r.Some? && r.value != "" ==> !IsSpace(r.value[|r.value| - 1])
  {
    var t := Trim(line);
    if PREFIX <= t then
      assert t[|PREFIX|..] != "" ==> t[|PREFIX|..][|t| - |PREFIX| - 1] == t[|t| - 1];
      Some(t[|PREFIX|..])
    else None
  }

  // Comparison with "sha-256", ignoring case.
  predicate IsSha256(a: string) {
    && |a| == 7
    && LowerChar(a[0]) == 's' && LowerChar(a[1]) == 'h' && LowerChar(a[2]) == 'a' && a[3] == '-'
    && a[4] == '2' && a[5] == '5' && a[6] == '6'
  }

  // `split_once(' ')`
  function SplitOnce(rest: string): (r: Option<(string, string)>)
    ensures r.None? <==> ' ' !in rest
    ensures r.Some? ==> ' ' !in r.value.0 && rest == r.value.0 + " " + r.value.1
  {
    var i := IndexOf(rest, ' ');
    if i == |rest| then assert rest == rest[..i]; None
    else Some((rest[..i], rest[i + 1..]))
  }

  // The value is trimmed.
  function RustFields(rest: string): Reading {
    match SplitOnce(rest)
    case None => Refused
    case Some((algorithm, value)) => if IsSha256(algorithm) then Value(Lower(Trim(value))) else Refused
  }

  // The first two pieces of `split(" ")`.
  function JsFields(jsLower: JsLower, rest: string): Reading {
    match SplitOnce(rest)
    case None => Refused
    case Some((algorithm, value)) =>
      if FirstWord(value) == "" || jsLower(algorithm) != "sha-256" then Refused
      else Value(jsLower(FirstWord(value)))
  }

  function FirstWord(s: string): string { s[..IndexOf(s, ' ')] }

  function RustReading(line: string): Reading {
    match AfterPrefix(line)
    case None => Other
    case Some(rest) => RustFields(rest)
  }

  function JsReading(jsLower: JsLower, line: string): Reading {
    match AfterPrefix(line)
    case None => Other
    case Some(rest) => JsFields(jsLower, rest)
  }

  function RustReadAll(lines: seq<string>): (r: seq<Reading>)
    ensures |r| == |lines|
  {
    seq(|lines|, i requires 0 <= i < |lines| => RustReading(lines[i]))
  }

  function JsReadAll(jsLower: JsLower, lines: seq<string>): (r: seq<Reading>)
    ensures |r| == |lines|
  {
    seq(|lines|, i requires 0 <= i < |lines| => JsReading(jsLower, lines[i]))
  }

  function RustReadings(sdp: string): seq<Reading> { RustReadAll(RustLines(sdp)) }

  function JsReadings(jsLower: JsLower, sdp: string): seq<Reading> { JsReadAll(jsLower, JsLines(sdp)) }

  // -------------------------------------------------------- whole documents

  // The fingerprint a document announces: at least one fingerprint line, none
  // refused, all naming the same value.
  ghost predicate Announces(readings: seq<Reading>, v: string) {
    && (exists r :: r in readings && r.Value?)
    && forall r :: r in readings ==> r == Other || r == Value(v)
  }

  function Announced(readings: seq<Reading>): (r: Option<string>)
    ensures forall v :: r == Some(v) <==> Announces(readings, v)
  {
    AnnounceMeans(readings, None);
    Announce(readings, None)
  }

  // The parsers' loop, started with `found`.
  function Announce(readings: seq<Reading>, found: Option<string>): Option<string> {
    if readings == [] then found
    else
      match readings[0]
      case Other => Announce(readings[1..], found)
      case Refused => None
      case Value(v) => if found.Some? && found.value != v then None else Announce(readings[1..], Some(v))
  }

  lemma {:induction false} AnnounceMeans(readings: seq<Reading>, found: Option<string>)
    ensures forall v :: Announce(readings, found) == Some(v) <==>
      ((forall x :: x in readings ==> x == Other || x == Value(v))
       && (found == Some(v) || (found == None && exists x :: x in readings && x.Value?)))
    decreases |readings|
  {
    if readings == [] {
    } else {
      var head, tail := readings[0], readings[1..];
      assert head in readings && forall x :: x in readings <==> x == head || x in tail;
      match head
      case Other => AnnounceMeans(tail, found);
      case Refused =>
      case Value(v) =>
        if found.None? || found.value == v {
          AnnounceMeans(tail, Some(v));
        }
    }
  }

  // One pass of either loop.
  lemma AnnounceUnfolds(readings: seq<Reading>, i: nat, reading: Reading, found: Option<string>)
    requires i < |readings| && reading == readings[i]
    ensures Announce(readings[i..], found) ==
      match reading
      case Other => Announce(readings[i + 1..], found)
      case Refused => None
      case Value(v) => if found.Some? && found.value != v then None else Announce(readings[i + 1..], Some(v))
  {
    assert readings[i..][1..] == readings[i + 1..];
  }

  function RustFingerprint(sdp: string): Option<string> { Announced(RustReadings(sdp)) }

  function JsFingerprint(jsLower: JsLower, sdp: string): Option<string> { Announced(JsReadings(jsLower, sdp)) }

  method RustFingerprintFromSdp(sdp: string) returns (r: Option<string>)
    ensures r == RustFingerprint(sdp)
  {
    r := RustAnnounce(RustLines(sdp));
  }

  // The loop over the lines.
  method RustAnnounce(lines: seq<string>) returns (found: Option<string>)
    ensures found == Announce(RustReadAll(lines), None)
  {
    found := None;
    ghost var readings := RustReadAll(lines);
    var i := 0;
    while i < |lines|
      invariant 0 <= i <= |lines|
      invariant Announce(readings, None) == Announce(readings[i..], found)
    {
      var reading := RustReading(lines[i]);
      AnnounceUnfolds(readings, i, reading, found);
      i := i + 1;
      match reading
      case Other =>
      case Refused => return None;
      case Value(value) =>
        if found.Some? && found.value != value {
          return None;
        }
        found := Some(value);
    }
  }

  method JsFingerprintFromSdp(jsLower: JsLower, sdp: string) returns (r: Option<string>)
    ensures r == JsFingerprint(jsLower, sdp)
  {
    r := JsAnnounce(jsLower, JsLines(sdp));
  }

  // The loop over the lines.
  method JsAnnounce(jsLower: JsLower, lines: seq<string>) returns (found: Option<string>)
    ensures found == Announce(JsReadAll(jsLower, lines), None)
  {
    found := None;
    ghost var readings := JsReadAll(jsLower, lines);
    var i := 0;
    while i < |lines|
      invariant 0 <= i <= |lines|
      invariant Announce(readings, None) == Announce(readings[i..], found)
    {
      var reading := JsReading(jsLower, lines[i]);
      AnnounceUnfolds(readings, i, reading, found);
      i := i + 1;
      match reading
      case Other =>
      case Refused => return None;
      case Value(value) =>
        if found.Some? && found.value != value {
          return None;
        }
        found := Some(value);
    }
  }

  // The order of the lines, and how often each occurs, does not matter.
  lemma OrderDoesNotMatter(a: seq<Reading>, b: seq<Reading>)
    requires forall r :: r in a <==> r in b
    ensures Announced(a) == Announced(b)
  {
    if v :| Announces(a, v) {
      assert Announces(b, v);
    } else if v :| Announces(b, v) {
      assert Announces(a, v);
    } else {
      assert Announced(a) == None;
      assert Announced(b) == None;
    }
  }

  // ------------------------------------------------ when the parsers agree

  // A sha-256 line whose value begins with white space, contains a space or is
  // lowercased in two ways.
  predicate ReadDifferently(jsLower: JsLower, line: string) {
    AfterPrefix(line).Some? && FieldsDiffer(jsLower, AfterPrefix(line).value)
  }

  predicate FieldsDiffer(jsLower: JsLower, rest: string) {
    match SplitOnce(rest)
    case None => false
    case Some((algorithm, value)) => IsSha256(algorithm) && value != "" && ValuesDiffer(jsLower, value)
  }

  predicate ValuesDiffer(jsLower: JsLower, value: string)
    requires value != ""
  {
    IsSpace(value[0]) || ' ' in value || jsLower(value) != Lower(value)
  }

  // It is the only kind of line the two parsers read differently.
  lemma ReadingsDifferExactlyWhen(jsLower: JsLower, line: string)
    requires LowersLikeJs(jsLower)
    ensures RustReading(line) != JsReading(jsLower, line) <==> ReadDifferently(jsLower, line)
  {
    if AfterPrefix(line).Some? {
      var rest := AfterPrefix(line).value;
      if SplitOnce(rest).Some? {
        var (algorithm, value) := SplitOnce(rest).value;
        SameAlgorithm(jsLower, algorithm);
        assert rest[|rest| - 1] == (" " + value)[|value|];
        ValuesDifferExactlyWhen(jsLower, value);
      }
    }
  }

  lemma SameAlgorithm(jsLower: JsLower, a: string)
    requires LowersLikeJs(jsLower)
    ensures jsLower(a) == "sha-256" <==> IsSha256(a)
  {
    assert LowersIt(jsLower, a);
    LowerIsSha256(a);
  }

  lemma LowerIsSha256(a: string)
    ensures Lower(a) == "sha-256" <==> IsSha256(a)
    ensures IsSha256(a) ==> IsAscii(a)
  {
    if IsSha256(a) {
      assert Lower(a) == "sha-256";
    }
  }

  lemma ValuesDifferExactlyWhen(jsLower: JsLower, value: string)
    requires LowersLikeJs(jsLower)
    requires value != "" && !IsSpace(value[|value| - 1])
    ensures ValuesDiffer(jsLower, value) <==>
      (FirstWord(value) == "" || Lower(Trim(value)) != jsLower(FirstWord(value)))
  {
    assert TrimEnd(value) == value;
    var word := FirstWord(value);
    if IsSpace(value[0]) {
      if word != "" {
        SpaceStaysFirst(jsLower, TrimStart(value), word);
      }
    } else if ' ' in value {
      assert LowersIt(jsLower, word);
      LowerKeepsSpaces(value);
    } else {
      assert word == value;
    }
  }

  lemma SpaceStaysFirst(jsLower: JsLower, a: string, b: string)
    requires LowersLikeJs(jsLower)
    requires a != "" ==> !IsSpace(a[0])
    requires b != "" && IsSpace(b[0])
    ensures Lower(a) != jsLower(b)
  {
    assert LowersIt(jsLower, b);
    assert a != "" ==> !IsSpace(Lower(a)[0]);
  }

  lemma LowerKeepsSpaces(s: string)
    ensures forall c :: IsSpace(c) ==> (c in Lower(s) <==> c in s)
  {
    forall c | IsSpace(c)
      ensures c in Lower(s) <==> c in s
    {
      assert forall i :: 0 <= i < |s| ==> (Lower(s)[i] == c <==> s[i] == c);
    }
  }

  // What is known of the page's lowercasing is also true of the host's.
  lemma LowerLowersLikeJs()
    ensures LowersLikeJs(Lower)
  {
    forall s
      ensures LowersIt(Lower, s)
    {
      LowerIsSha256(s);
      LowerKeepsSpaces(s);
    }
  }

  // They give the same answer for every document none of whose lines they read
  // differently.
  lemma ParsersAgree(jsLower: JsLower, sdp: string)
    requires LowersLikeJs(jsLower)
    requires forall line :: line in JsLines(sdp) ==> !ReadDifferently(jsLower, line)
    ensures RustFingerprint(sdp) == JsFingerprint(jsLower, sdp)
  {
    SameLines(jsLower, sdp);
    var rust, js := RustReadings(sdp), JsReadings(jsLower, sdp);
    forall v
      ensures Announces(rust, v) <==> Announces(js, v)
    {
      if Announces(rust, v) {
        TransferAnnounces(rust, js, v);
      }
      if Announces(js, v) {
        TransferAnnounces(js, rust, v);
      }
    }
    assert Announced(rust).Some? ==> Announces(js, Announced(rust).value);
    assert Announced(js).Some? ==> Announces(rust, Announced(js).value);
  }

  lemma TransferAnnounces(a: seq<Reading>, b: seq<Reading>, v: string)
    requires forall r :: r != Other ==> (r in a <==> r in b)
    requires Announces(a, v)
    ensures Announces(b, v)
  {
    var r :| r in a && r.Value?;
    assert r in b;
  }

  lemma {:induction false} SameLines(jsLower: JsLower, sdp: string)
    requires LowersLikeJs(jsLower)
    requires forall line :: line in JsLines(sdp) ==> !ReadDifferently(jsLower, line)
    ensures forall r :: r != Other ==> (r in RustReadings(sdp) <==> r in JsReadings(jsLower, sdp))
  {
    var i := IndexOf(sdp, '\n');
    if i == |sdp| {
      LastLine(jsLower, sdp);
      assert sdp in JsLines(sdp);
      ReadingsDifferExactlyWhen(jsLower, sdp);
    } else {
      var first, tail := JsLinesSplit(jsLower, sdp);
      assert first in JsLines(sdp);
      assert forall line :: line in JsLines(tail) ==> line in JsLines(sdp);
      SameLines(jsLower, tail);
      ReadingsDifferExactlyWhen(jsLower, first);
      RustReadingsSplit(sdp);
    }
  }

  // What the first line of a document is to the page, and what is left.
  lemma JsLinesSplit(jsLower: JsLower, sdp: string) returns (first: string, tail: string)
    requires IndexOf(sdp, '\n') < |sdp|
    ensures first == sdp[..IndexOf(sdp, '\n')] && tail == sdp[IndexOf(sdp, '\n') + 1..]
    ensures JsLines(sdp) == [first] + JsLines(tail)
    ensures JsReadings(jsLower, sdp) == [JsReading(jsLower, first)] + JsReadings(jsLower, tail)
  {
    var i := IndexOf(sdp, '\n');
    first, tail := sdp[..i], sdp[i + 1..];
    JsReadingsCons(jsLower, sdp, first, JsLines(tail), JsReading(jsLower, first));
  }

  lemma JsReadingsCons(jsLower: JsLower, sdp: string, line: string, lines: seq<string>, r: Reading)
    requires JsLines(sdp) == [line] + lines && r == JsReading(jsLower, line)
    ensures JsReadings(jsLower, sdp) == [r] + JsReadAll(jsLower, lines)
  {
    JsReadAllCons(jsLower, line, lines);
  }

  lemma JsReadAllCons(jsLower: JsLower, line: string, lines: seq<string>)
    ensures JsReadAll(jsLower, [line] + lines) == [JsReading(jsLower, line)] + JsReadAll(jsLower, lines)
  {
    assert ([line] + lines)[1..] == lines;
  }

  // A document without a line break is one line to both, or none to the host.
  lemma LastLine(jsLower: JsLower, sdp: string)
    requires IndexOf(sdp, '\n') == |sdp|
    ensures JsLines(sdp) == [sdp] && JsReadings(jsLower, sdp) == [JsReading(jsLower, sdp)]
    ensures RustReadings(sdp) == if sdp == [] then [] else [RustReading(sdp)]
    ensures sdp == [] ==> JsReading(jsLower, sdp) == Other
  {
    JsReadAllCons(jsLower, sdp, []);
    ReadAllCons(sdp, []);
    assert [sdp] + [] == [sdp];
  }

  // Every fingerprint line the page sees is read by the host as well.
  lemma {:induction false} HostReadsEveryLine(jsLower: JsLower, sdp: string, line: string)
    requires line in JsLines(sdp) && AfterPrefix(line).Some?
    ensures RustReading(line) in RustReadings(sdp) && JsReading(jsLower, line) in JsReadings(jsLower, sdp)
  {
    var i := IndexOf(sdp, '\n');
    if i == |sdp| {
      LastLine(jsLower, sdp);
      assert line == sdp && sdp != [];
    } else {
      var first, tail := JsLinesSplit(jsLower, sdp);
      RustReadingsSplit(sdp);
      if line != first {
        HostReadsEveryLine(jsLower, tail, line);
      }
    }
  }

  // Two answers that are the same fingerprint cannot come from a document with
  // a line that is read differently.
  lemma OneValueIsReadAlike(jsLower: JsLower, sdp: string, line: string)
    requires LowersLikeJs(jsLower)
    requires line in JsLines(sdp) && ReadDifferently(jsLower, line) && RustFingerprint(sdp).Some?
    ensures JsFingerprint(jsLower, sdp) != RustFingerprint(sdp)
  {
    HostReadsEveryLine(jsLower, sdp, line);
    ReadingsDifferExactlyWhen(jsLower, line);
    if JsFingerprint(jsLower, sdp) == RustFingerprint(sdp) {
      var v := RustFingerprint(sdp).value;
      ReadingIsTheValue(RustReadings(sdp), RustReading(line), v);
      ReadingIsTheValue(JsReadings(jsLower, sdp), JsReading(jsLower, line), v);
    }
  }

  lemma ReadingIsTheValue(readings: seq<Reading>, r: Reading, v: string)
    requires Announced(readings) == Some(v) && r in readings && r != Other
    ensures r == Value(v)
  {
    assert Announces(readings, v);
  }

  // A document with a refused line, two different values or no fingerprint line.
  ghost predicate NoAnswer(readings: seq<Reading>) {
    || Refused in readings
    || (exists u, v :: u != v && Value(u) in readings && Value(v) in readings)
    || (forall r :: r in readings ==> r == Other)
  }

  lemma NoAnswerExactlyWhen(readings: seq<Reading>)
    ensures Announced(readings).None? <==> NoAnswer(readings)
  {
    if Announced(readings).Some? {
      assert Announces(readings, Announced(readings).value);
    } else if r :| r in readings && r != Other {
      if r.Value? {
        assert !Announces(readings, r.value);
        var q :| q in readings && q != Other && q != r;
        assert q.Value? ==> r == Value(r.value) && q == Value(q.value) && q.value != r.value;
      }
    }
  }

  // Both parsers give the same answer for a document exactly when they read
  // none of its lines differently, or when both find a reason to give none.
  lemma ParsersAgreeExactlyWhen(jsLower: JsLower, sdp: string)
    requires LowersLikeJs(jsLower)
    ensures RustFingerprint(sdp) == JsFingerprint(jsLower, sdp) <==>
      || (forall line :: line in JsLines(sdp) ==> !ReadDifferently(jsLower, line))
      || (NoAnswer(RustReadings(sdp)) && NoAnswer(JsReadings(jsLower, sdp)))
  {
    NoAnswerExactlyWhen(RustReadings(sdp));
    NoAnswerExactlyWhen(JsReadings(jsLower, sdp));
    if forall line :: line in JsLines(sdp) ==> !ReadDifferently(jsLower, line) {
      ParsersAgree(jsLower, sdp);
    } else if RustFingerprint(sdp).Some? {
      var line :| line in JsLines(sdp) && ReadDifferently(jsLower, line);
      OneValueIsReadAlike(jsLower, sdp, line);
    }
  }

  lemma RustReadingsSplit(sdp: string)
    requires IndexOf(sdp, '\n') < |sdp|
    ensures var i := IndexOf(sdp, '\n');
      RustReadings(sdp) == [RustReading(sdp[..i])] + RustReadings(sdp[i + 1..])
  {
    var i := IndexOf(sdp, '\n');
    var stripped := RustLinesSplit(sdp);
    var r := SameReading(sdp[..i], stripped);
    ReadingsCons(sdp, stripped, RustLines(sdp[i + 1..]), r);
  }

  lemma ReadingsCons(sdp: string, line: string, lines: seq<string>, r: Reading)
    requires RustLines(sdp) == [line] + lines && r == RustReading(line)
    ensures RustReadings(sdp) == [r] + RustReadAll(lines)
  {
    ReadAllCons(line, lines);
  }

  // The same line, perhaps without the '\r' of its ending.
  predicate Stripped(line: string, stripped: string) {
    stripped == line || (line != [] && IsSpace(line[|line| - 1]) && stripped == line[..|line| - 1])
  }

  // That is trimmed anyway.
  lemma SameReading(line: string, stripped: string) returns (r: Reading)
    requires Stripped(line, stripped)
    ensures r == RustReading(line) && r == RustReading(stripped)
  {
    r := RustReading(line);
    if stripped != line {
      FinalSpaceIsNotRead(line);
    }
  }

  lemma RustLinesSplit(sdp: string) returns (stripped: string)
    requires IndexOf(sdp, '\n') < |sdp|
    ensures var i := IndexOf(sdp, '\n');
      && RustLines(sdp) == [stripped] + RustLines(sdp[i + 1..])
      && Stripped(sdp[..i], stripped)
  {
    var i := IndexOf(sdp, '\n');
    stripped := if i > 0 && sdp[i - 1] == '\r' then sdp[..i - 1] else sdp[..i];
    assert stripped == if i > 0 && sdp[i - 1] == '\r' then sdp[..i][..i - 1] else sdp[..i];
  }

  lemma ReadAllCons(line: string, lines: seq<string>)
    ensures RustReadAll([line] + lines) == [RustReading(line)] + RustReadAll(lines)
  {
    assert ([line] + lines)[1..] == lines;
  }

  lemma FinalSpaceIsNotRead(line: string)
    requires line != [] && IsSpace(line[|line| - 1])
    ensures RustReading(line[..|line| - 1]) == RustReading(line)
  {
    assert Trim(line[..|line| - 1]) == Trim(line);
  }

  // Section 5 of RFC 8122: hash function, one space, hexadecimal pairs joined
  // by colons. Only what matters here is kept: neither part holds white space.
  ghost predicate FollowsRfc8122(line: string) {
    AfterPrefix(line).Some? ==>
      exists algorithm, value ::
        && AfterPrefix(line).value == algorithm + " " + value
        && (forall c :: c in algorithm ==> !IsSpace(c))
        && (forall c :: c in value ==> IsFingerprintChar(c))
  }

  predicate IsFingerprintChar(c: char) {
    '0' <= c <= '9' || 'A' <= c <= 'F' || 'a' <= c <= 'f' || c == ':'
  }

  lemma Rfc8122LineReadsAlike(jsLower: JsLower, line: string)
    requires LowersLikeJs(jsLower)
    requires FollowsRfc8122(line)
    ensures !ReadDifferently(jsLower, line)
  {
    if AfterPrefix(line).Some? {
      var rest := AfterPrefix(line).value;
      var algorithm, value :|
        && rest == algorithm + " " + value
        && (forall c :: c in algorithm ==> !IsSpace(c))
        && (forall c :: c in value ==> IsFingerprintChar(c));
      assert LowersIt(jsLower, value);
      OneSpaceReadsAlike(jsLower, algorithm, value);
    }
  }

  lemma OneSpaceReadsAlike(jsLower: JsLower, algorithm: string, value: string)
    requires LowersIt(jsLower, value)
    requires forall c :: c in algorithm ==> !IsSpace(c)
    requires forall c :: c in value ==> IsFingerprintChar(c)
    ensures !FieldsDiffer(jsLower, algorithm + " " + value)
  {
    FirstSpace(algorithm, value);
    assert forall k :: 0 <= k < |value| ==> value[k] in value;
    assert IsAscii(value);
  }

  lemma ParsersAgreeOnRfc8122(jsLower: JsLower, sdp: string)
    requires LowersLikeJs(jsLower)
    requires forall line :: line in JsLines(sdp) ==> FollowsRfc8122(line)
    ensures RustFingerprint(sdp) == JsFingerprint(jsLower, sdp)
  {
    forall line | line in JsLines(sdp)
      ensures !ReadDifferently(jsLower, line)
    {
      Rfc8122LineReadsAlike(jsLower, line);
    }
    ParsersAgree(jsLower, sdp);
  }

  lemma FirstSpace(word: string, rest: string)
    requires ' ' !in word
    ensures SplitOnce(word + " " + rest) == Some((word, rest))
  {
    var s := word + " " + rest;
    assert s[|word|] == ' ' && ' ' in s;
    var (a, b) := SplitOnce(s).value;
    assert s[|a|] == ' ';
    assert forall i :: 0 <= i < |word| ==> s[i] == word[i] && word[i] != ' ';
    assert forall i :: 0 <= i < |a| ==> s[i] == a[i] && a[i] != ' ';
    assert |a| == |word|;
    assert a == s[..|a|] && word == s[..|a|] && b == s[|a| + 1..] && rest == s[|a| + 1..];
  }

  // A document both accept.
  lemma OneLineDocument(jsLower: JsLower, value: string)
    requires LowersAscii(jsLower)
    requires value != "" && forall c :: c in value ==> IsFingerprintChar(c)
    ensures
      var sdp := PREFIX + ("sha-256" + " " + value);
      RustFingerprint(sdp) == Some(Lower(value)) && JsFingerprint(jsLower, sdp) == Some(Lower(value))
  {
    HashNameStays(jsLower);
    AsciiIsLowered(jsLower, value);
    OneLoweredLine(jsLower, value);
  }

  lemma OneLoweredLine(jsLower: JsLower, value: string)
    requires jsLower("sha-256") == "sha-256" && jsLower(value) == Lower(value)
    requires value != "" && forall c :: c in value ==> IsFingerprintChar(c)
    ensures
      var sdp := PREFIX + ("sha-256" + " " + value);
      RustFingerprint(sdp) == Some(Lower(value)) && JsFingerprint(jsLower, sdp) == Some(Lower(value))
  {
    var rest := "sha-256" + " " + value;
    var line := PREFIX + rest;
    assert value[|value| - 1] in value && rest[|rest| - 1] == value[|value| - 1];
    PrefixedLine(rest);
    OneSpace(jsLower, value);
    NoLineBreak(value);
    OneLine(jsLower, line, Value(Lower(value)), Value(Lower(value)));
  }

  lemma HashNameStays(jsLower: JsLower)
    requires LowersAscii(jsLower)
    ensures jsLower("sha-256") == "sha-256"
  {
    LowerIsSha256("sha-256");
  }

  lemma AsciiIsLowered(jsLower: JsLower, s: string)
    requires LowersAscii(jsLower) && forall c :: c in s ==> (c as int) < 0x80
    ensures jsLower(s) == Lower(s)
  {
    forall i | 0 <= i < |s|
      ensures (s[i] as int) < 0x80
    {
      assert s[i] in s;
    }
    assert IsAscii(s);
  }

  lemma NoLineBreak(value: string)
    requires forall c :: c in value ==> IsFingerprintChar(c)
    ensures '\n' !in PREFIX + ("sha-256" + " " + value)
  {
    assert '\n' !in PREFIX && '\n' !in "sha-256" && '\n' !in " ";
  }

  lemma PrefixedLine(rest: string)
    requires rest != "" && !IsSpace(rest[|rest| - 1])
    ensures AfterPrefix(PREFIX + rest) == Some(rest)
  {
    var line := PREFIX + rest;
    assert line[0] == 'a' && line[|line| - 1] == rest[|rest| - 1];
    assert TrimEnd(line) == line && TrimStart(line) == line;
  }

  lemma OneSpace(jsLower: JsLower, value: string)
    requires jsLower("sha-256") == "sha-256" && jsLower(value) == Lower(value)
    requires value != "" && forall c :: c in value ==> IsFingerprintChar(c)
    ensures RustFields("sha-256" + " " + value) == Value(Lower(value))
    ensures JsFields(jsLower, "sha-256" + " " + value) == Value(Lower(value))
  {
    WholeWord(value);
    FieldsOf(jsLower, value);
  }

  lemma WholeWord(value: string)
    requires value != "" && forall c :: c in value ==> IsFingerprintChar(c)
    ensures Trim(value) == value && FirstWord(value) == value
  {
    assert forall k :: 0 <= k < |value| ==> value[k] in value;
    assert TrimEnd(value) == value && TrimStart(value) == value;
    assert IndexOf(value, ' ') == |value| && value[..|value|] == value;
  }

  lemma FieldsOf(jsLower: JsLower, value: string)
    requires jsLower("sha-256") == "sha-256"
    requires FirstWord(value) != ""
    ensures RustFields("sha-256" + " " + value) == Value(Lower(Trim(value)))
    ensures JsFields(jsLower, "sha-256" + " " + value) == Value(jsLower(FirstWord(value)))
  {
    FirstSpace("sha-256", value);
  }

  // What the parsers make of a document of one line.
  lemma OneLine(jsLower: JsLower, line: string, rust: Reading, js: Reading)
    requires line != "" && '\n' !in line && RustReading(line) == rust && JsReading(jsLower, line) == js
    ensures RustFingerprint(line) == if rust.Value? then Some(rust.value) else None
    ensures JsFingerprint(jsLower, line) == if js.Value? then Some(js.value) else None
  {
    assert IndexOf(line, '\n') == |line|;
    LastLine(jsLower, line);
    OneReading(rust);
    OneReading(js);
  }

  lemma OneReading(r: Reading)
    ensures Announced([r]) == if r.Value? then Some(r.value) else None
  {
    assert [r][1..] == [];
  }

  // Outside that syntax they differ: with two spaces the host takes the value
  // and the page refuses the line.
  lemma DoubleSpaceIsReadDifferently(jsLower: JsLower, line: string, value: string)
    requires value != "" && forall c :: c in value ==> IsFingerprintChar(c)
    requires AfterPrefix(line) == Some("sha-256" + " " + (" " + value))
    ensures RustReading(line) == Value(Lower(value)) && JsReading(jsLower, line) == Refused
  {
    PaddedValue(value);
    TwoSpaces(jsLower, " " + value);
  }

  lemma TwoSpaces(jsLower: JsLower, padded: string)
    requires padded != "" && padded[0] == ' '
    ensures
      var rest := "sha-256" + " " + padded;
      RustFields(rest) == Value(Lower(Trim(padded))) && JsFields(jsLower, rest) == Refused
  {
    FirstSpace("sha-256", padded);
  }

  lemma PaddedValue(value: string)
    requires value != "" && forall c :: c in value ==> IsFingerprintChar(c)
    ensures Trim(" " + value) == value
  {
    var padded := " " + value;
    assert value[0] in value && value[|value| - 1] in value;
    assert padded[|padded| - 1] == value[|value| - 1];
    assert TrimEnd(padded) == padded;
    assert padded[1..] == value;
    assert TrimStart(padded) == TrimStart(value) == value;
  }

  // Such lines exist.
  lemma DoubleSpaceLineExists()
    ensures AfterPrefix(PREFIX + "sha-256  AB") == Some("sha-256" + " " + (" " + "AB"))
  {
    var line := PREFIX + "sha-256  AB";
    assert line[0] == 'a' && line[|line| - 1] == 'B';
    assert Trim(line) == line;
    assert line[|PREFIX|..] == "sha-256  AB" == "sha-256" + " " + (" " + "AB");
  }

  // And documents the two parsers answer differently.
  lemma ParsersDisagree(jsLower: JsLower)
    ensures RustFingerprint(PREFIX + "sha-256  AB") == Some("ab")
    ensures JsFingerprint(jsLower, PREFIX + "sha-256  AB") == None
  {
    DoubleSpaceLineExists();
    assert '\n' !in PREFIX && '\n' !in "sha-256  AB";
    ParsersDisagreeOn(jsLower, PREFIX + "sha-256  AB", "AB");
    LowerOfAB();
  }

  lemma ParsersDisagreeOn(jsLower: JsLower, line: string, value: string)
    requires value != "" && forall c :: c in value ==> IsFingerprintChar(c)
    requires line != "" && '\n' !in line && AfterPrefix(line) == Some("sha-256" + " " + (" " + value))
    ensures RustFingerprint(line) == Some(Lower(value)) && JsFingerprint(jsLower, line) == None
  {
    DoubleSpaceIsReadDifferently(jsLower, line, value);
    OneLine(jsLower, line, Value(Lower(value)), Refused);
  }

  lemma LowerOfAB()
    ensures Lower("AB") == "ab"
  {
  }

  // ------------------------------------------------ a fingerprint is on one line

  lemma {:induction false} RustLinesHaveNoBreak(sdp: string)
    ensures forall line :: line in RustLines(sdp) ==> '\n' !in line
  {
    var i := IndexOf(sdp, '\n');
    if i == |sdp| {
      assert sdp[..i] == sdp;
    } else {
      RustLinesHaveNoBreak(sdp[i + 1..]);
      var stripped := RustLinesSplit(sdp);
    }
  }

  lemma {:induction false} JsLinesHaveNoBreak(sdp: string)
    ensures forall line :: line in JsLines(sdp) ==> '\n' !in line
  {
    var i := IndexOf(sdp, '\n');
    if i == |sdp| {
      assert sdp[..i] == sdp;
    } else {
      JsLinesHaveNoBreak(sdp[i + 1..]);
    }
  }

  lemma {:induction false} TrimEndKeeps(s: string)
    ensures TrimEnd(s) <= s
    decreases |s|
  {
    if s != [] && IsSpace(s[|s| - 1]) {
      TrimEndKeeps(s[..|s| - 1]);
    }
  }

  lemma {:induction false} TrimStartKeeps(s: string, c: char)
    requires c in TrimStart(s)
    ensures c in s
  {
    if s != [] && IsSpace(s[0]) {
      TrimStartKeeps(s[1..], c);
    }
  }

  lemma TrimKeeps(s: string, c: char)
    requires c in Trim(s)
    ensures c in s
  {
    TrimStartKeeps(TrimEnd(s), c);
    TrimEndKeeps(s);
  }

  lemma ValueHasNoBreak(jsLower: JsLower, line: string, v: string)
    requires LowersLikeJs(jsLower)
    requires '\n' !in line && (RustReading(line) == Value(v) || JsReading(jsLower, line) == Value(v))
    ensures '\n' !in v
  {
    var text := ValueIsLowered(jsLower, line, v);
    LowerKeepsSpaces(text);
    assert LowersIt(jsLower, text);
  }

  lemma ValueIsLowered(jsLower: JsLower, line: string, v: string) returns (text: string)
    requires '\n' !in line && (RustReading(line) == Value(v) || JsReading(jsLower, line) == Value(v))
    ensures '\n' !in text && (v == Lower(text) || v == jsLower(text))
  {
    TrimmedHasNoBreak(line);
    var rest := AfterPrefix(line).value;
    assert RustReading(line) == RustFields(rest) && JsReading(jsLower, line) == JsFields(jsLower, rest);
    text := FieldIsLowered(jsLower, rest, v);
  }

  lemma FieldIsLowered(jsLower: JsLower, rest: string, v: string) returns (text: string)
    requires '\n' !in rest && (RustFields(rest) == Value(v) || JsFields(jsLower, rest) == Value(v))
    ensures '\n' !in text && (v == Lower(text) || v == jsLower(text))
  {
    var (algorithm, value) := SplitOnce(rest).value;
    assert '\n' !in value;
    if RustFields(rest) == Value(v) {
      text := Trim(value);
      TrimmedHasNoBreak(value);
    } else {
      text := FirstWord(value);
    }
  }

  lemma TrimmedHasNoBreak(s: string)
    requires '\n' !in s
    ensures '\n' !in Trim(s)
  {
    if '\n' in Trim(s) {
      TrimKeeps(s, '\n');
    }
  }

  // Both parsers split at line breaks first, so no fingerprint has one in it.
  lemma FingerprintHasNoBreak(jsLower: JsLower, sdp: string, v: string)
    requires LowersLikeJs(jsLower)
    requires RustFingerprint(sdp) == Some(v) || JsFingerprint(jsLower, sdp) == Some(v)
    ensures '\n' !in v
  {
    RustLinesHaveNoBreak(sdp);
    JsLinesHaveNoBreak(sdp);
    if RustFingerprint(sdp) == Some(v) {
      var i := ValueIsRead(RustReadings(sdp), v);
      ValueHasNoBreak(jsLower, RustLines(sdp)[i], v);
    } else {
      var i := ValueIsRead(JsReadings(jsLower, sdp), v);
      ValueHasNoBreak(jsLower, JsLines(sdp)[i], v);
    }
  }

  lemma ValueIsRead(readings: seq<Reading>, v: string) returns (i: nat)
    requires Announced(readings) == Some(v)
    ensures i < |readings| && readings[i] == Value(v)
  {
    assert Announces(readings, v);
    var r :| r in readings && r.Value?;
    i :| i < |readings| && readings[i] == r;
  }
}

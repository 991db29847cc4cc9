// The RTP packets of the screen video (host/src/rtp_video.rs). How a frame is
// cut into payloads is the H.264 payloader's business, and whether a write
// succeeds the track's.
module RtpVideo {
  import opened Wrappers
  import opened Words

  type Payload = seq<Byte>

  const CLOCK_RATE := 90000.0
  const SEQUENCES := 0x1_0000

  datatype Packet = Packet(marker: bool, sequence: int, timestamp: Word, payload: Payload)

  // Whether the n-th write succeeds.
  type Verdict = nat -> bool

  // ------------------------------------------------------------- timestamps

  // saturating_duration_since, in seconds
  function Elapsed(start: real, captured: real): (r: real)
    ensures r >= 0.0
  {
    if captured >= start then captured - start else 0.0
  }

  function Ticks(start: real, captured: real): (r: real)
    ensures r >= 0.0
  {
    Elapsed(start, captured) * CLOCK_RATE
  }

  // `as u64`: towards zero, and no further than the largest.
  function AsU64(x: real): (r: nat)
    requires x >= 0.0
  {
    if x.Floor < 0x1_0000_0000_0000_0000 then x.Floor else 0xffff_ffff_ffff_ffff
  }

  function Timestamp(start: real, captured: real): Word { AsU64(Ticks(start, captured)) % MODULUS }

  // The gap a receiver sees between two timestamps.
  function Gap(earlier: Word, later: Word): Word { (later - earlier) % MODULUS }

  // Ten million years of ticks fit 64 bits.
  predicate Representable(start: real, captured: real) { Ticks(start, captured).Floor < 0x1_0000_0000_0000_0000 }

  // The receiver recovers the capture gap to within one tick exactly when the
  // clock did not tick 2^32 times or more in between.
  lemma GapIsRecoveredExactlyWhen(start: real, a: real, b: real)
    requires a <= b && Representable(start, b)
    ensures
      var exact := Ticks(start, b) - Ticks(start, a);
      var seen := Gap(Timestamp(start, a), Timestamp(start, b)) as real;
      -1.0 < seen - exact < 1.0 <==> Ticks(start, b).Floor - Ticks(start, a).Floor < MODULUS
  {
    assert Elapsed(start, a) <= Elapsed(start, b);
    TicksGrow(start, a, b);
    var m, n := Ticks(start, a).Floor, Ticks(start, b).Floor;
    GapOfFloors(m, n);
    var seen := Gap(Timestamp(start, a), Timestamp(start, b));
    if n - m >= MODULUS {
      assert seen <= n - m - MODULUS;
    }
  }

  lemma TicksGrow(start: real, a: real, b: real)
    requires a <= b
    ensures Ticks(start, a) <= Ticks(start, b) && Ticks(start, a).Floor <= Ticks(start, b).Floor
  {
  }

  lemma GapOfFloors(m: nat, n: nat)
    requires m <= n
    ensures
      var gap := Gap(m % MODULUS, n % MODULUS);
      gap == (n - m) % MODULUS && (n - m < MODULUS ==> gap == n - m) && (n - m >= MODULUS ==> gap <= n - m - MODULUS)
  {
  }

  // So any gap of less than 2^32 - 1 ticks is recovered.
  lemma ShortGapsAreRecovered(start: real, a: real, b: real)
    requires a <= b && Representable(start, b)
    requires Ticks(start, b) - Ticks(start, a) <= MODULUS as real - 1.0
    ensures
      var exact := Ticks(start, b) - Ticks(start, a);
      -1.0 < Gap(Timestamp(start, a), Timestamp(start, b)) as real - exact < 1.0
  {
    GapIsRecoveredExactlyWhen(start, a, b);
  }

  // A gap of less than 2^32 ticks need not be: a quarter of a tick short of it,
  // and the receiver sees no gap at all.
  lemma AlmostAWholeTurnIsLost() returns (start: real, a: real, b: real)
    ensures a <= b && Representable(start, b) && Ticks(start, b) - Ticks(start, a) < MODULUS as real
    ensures Gap(Timestamp(start, a), Timestamp(start, b)) == 0
  {
    start, a, b := 0.0, 0.5 / CLOCK_RATE, (MODULUS as real + 0.25) / CLOCK_RATE;
    assert Ticks(start, a) == 0.5 && Ticks(start, b) == MODULUS as real + 0.25;
    assert Ticks(start, a).Floor == 0 && Ticks(start, b).Floor == MODULUS;
  }

  // ------------------------------------------------------------- packets

  // A frame's packets, the first being the n-th ever made.
  function Packets(n: nat, timestamp: Word, payloads: seq<Payload>): (r: seq<Packet>)
    ensures |r| == |payloads|
    decreases |payloads|
  {
    if payloads == [] then []
    else
      [Packet(|payloads| == 1, n % SEQUENCES, timestamp, payloads[0])] + Packets(n + 1, timestamp, payloads[1..])
  }

  lemma {:induction false} PacketAt(n: nat, timestamp: Word, payloads: seq<Payload>, i: nat)
    requires i < |payloads|
    ensures Packets(n, timestamp, payloads)[i]
      == Packet(i == |payloads| - 1, (n + i) % SEQUENCES, timestamp, payloads[i])
    decreases i
  {
    if i == 0 {
    } else {
      PacketAt(n + 1, timestamp, payloads[1..], i - 1);
    }
  }

  // How many writes are attempted: up to and including the first that fails.
  function Attempts(v: Verdict, n: nat, count: nat): (k: nat)
    ensures k <= count
    ensures forall i :: n <= i < n + k - 1 ==> v(i)
    ensures k < count ==> k > 0 && !v(n + k - 1)
    decreases count
  {
    if count == 0 then 0 else if v(n) then 1 + Attempts(v, n + 1, count - 1) else 1
  }

  // Writes n, n + 1, ... all succeed, `count` of them.
  ghost predicate AllWritten(v: Verdict, n: nat, count: nat) { forall j :: n <= j < n + count ==> v(j) }

  lemma {:induction false} AttemptsSoFar(v: Verdict, n: nat, count: nat, i: nat)
    requires i <= count && AllWritten(v, n, i)
    ensures i == count ==> Attempts(v, n, count) == count
    ensures i < count && !v(n + i) ==> Attempts(v, n, count) == i + 1
    decreases i
  {
    if i == 0 {
    } else {
      assert v(n);
      AttemptsSoFar(v, n + 1, count - 1, i - 1);
    }
  }

  datatype Frame = Frame(captured: real, payloads: Option<seq<Payload>>)

  // All packets handed to the track so far, whether or not it took them.
  function AfterFrame(v: Verdict, start: real, log: seq<Packet>, f: Frame): seq<Packet> {
    if f.payloads.None? then log
    else
      var k := Attempts(v, |log|, |f.payloads.value|);
      log + Packets(|log|, Timestamp(start, f.captured), f.payloads.value)[..k]
  }

  function AfterFrames(v: Verdict, start: real, log: seq<Packet>, frames: seq<Frame>): seq<Packet>
    decreases |frames|
  {
    if frames == [] then log else AfterFrames(v, start, AfterFrame(v, start, log, frames[0]), frames[1..])
  }

  ghost predicate Numbered(log: seq<Packet>) {
    forall i :: 0 <= i < |log| ==> log[i].sequence == i % SEQUENCES
  }

  // Over any frames, whatever writes fail: the i-th packet attempted carries
  // sequence number i, wrapped to 16 bits.
  lemma {:induction false} PacketsAreNumbered(v: Verdict, start: real, log: seq<Packet>, frames: seq<Frame>)
    requires Numbered(log)
    ensures log <= AfterFrames(v, start, log, frames) && Numbered(AfterFrames(v, start, log, frames))
    decreases |frames|
  {
    if frames == [] {
    } else {
      var next := AfterFrame(v, start, log, frames[0]);
      FrameIsNumbered(v, start, log, frames[0]);
      PacketsAreNumbered(v, start, next, frames[1..]);
    }
  }

  lemma FrameIsNumbered(v: Verdict, start: real, log: seq<Packet>, f: Frame)
    requires Numbered(log)
    ensures log <= AfterFrame(v, start, log, f) && Numbered(AfterFrame(v, start, log, f))
  {
    var next := AfterFrame(v, start, log, f);
    forall i | |log| <= i < |next|
      ensures next[i].sequence == i % SEQUENCES
    {
      PacketAt(|log|, Timestamp(start, f.captured), f.payloads.value, i - |log|);
    }
  }

  // A frame's packets share its timestamp, carry its payloads in order, and
  // only the one with the last payload has the marker.
  lemma FramePackets(v: Verdict, start: real, log: seq<Packet>, f: Frame, i: nat)
    requires f.payloads.Some? && |log| <= i < |AfterFrame(v, start, log, f)|
    ensures
      var p, j := AfterFrame(v, start, log, f)[i], i - |log|;
      && j < |f.payloads.value| && p.payload == f.payloads.value[j]
      && p.timestamp == Timestamp(start, f.captured)
      && (p.marker <==> j == |f.payloads.value| - 1)
  {
    PacketAt(|log|, Timestamp(start, f.captured), f.payloads.value, i - |log|);
  }

  // ------------------------------------------------------------- what a receiver makes of them

  datatype Received = Received(timestamp: Word, payloads: seq<Payload>)

  // Frames, told apart by the marker alone.
  function Reassembled(packets: seq<Packet>, partial: seq<Payload>): seq<Received>
    decreases |packets|
  {
    if packets == [] then []
    else
      var p := packets[0];
      if p.marker then [Received(p.timestamp, partial + [p.payload])] + Reassembled(packets[1..], [])
      else Reassembled(packets[1..], partial + [p.payload])
  }

  // The frames that have packets at all.
  function Sendable(start: real, frames: seq<Frame>): seq<Received> {
    if frames == [] then []
    else
      var f := frames[0];
      var rest := Sendable(start, frames[1..]);
      if f.payloads.Some? && f.payloads.value != [] then
        [Received(Timestamp(start, f.captured), f.payloads.value)] + rest
      else rest
  }

  lemma {:induction false} FrameReassembles(n: nat, timestamp: Word, payloads: seq<Payload>,
                                            partial: seq<Payload>, rest: seq<Packet>)
    requires payloads != []
    ensures Reassembled(Packets(n, timestamp, payloads) + rest, partial)
      == [Received(timestamp, partial + payloads)] + Reassembled(rest, [])
    decreases |payloads|
  {
    var p := Packet(|payloads| == 1, n % SEQUENCES, timestamp, payloads[0]);
    var more := Packets(n + 1, timestamp, payloads[1..]);
    var all := Packets(n, timestamp, payloads) + rest;
    assert all[0] == p && all[1..] == more + rest;
    TakeOne(partial, payloads);
    if |payloads| == 1 {
      assert more + rest == rest;
    } else {
      assert Reassembled(all, partial) == Reassembled(more + rest, partial + [payloads[0]]);
      FrameReassembles(n + 1, timestamp, payloads[1..], partial + [payloads[0]], rest);
    }
  }

  lemma TakeOne(partial: seq<Payload>, payloads: seq<Payload>)
    requires payloads != []
    ensures partial + payloads == partial + [payloads[0]] + payloads[1..]
    ensures |payloads| == 1 ==> partial + payloads == partial + [payloads[0]]
  {
  }

  lemma AllAttempted(v: Verdict, n: nat, count: nat)
    requires forall i :: v(i)
    ensures Attempts(v, n, count) == count
  {
  }

  // The packets of a run of frames alone.
  function Sent(n: nat, start: real, frames: seq<Frame>): seq<Packet>
    decreases |frames|
  {
    if frames == [] then []
    else if frames[0].payloads.None? then Sent(n, start, frames[1..])
    else
      var payloads := frames[0].payloads.value;
      Packets(n, Timestamp(start, frames[0].captured), payloads) + Sent(n + |payloads|, start, frames[1..])
  }

  // One frame, all of it.
  lemma WholeFrame(v: Verdict, start: real, log: seq<Packet>, f: Frame) returns (all: seq<Packet>)
    requires forall i :: v(i)
    ensures all == if f.payloads.None? then [] else Packets(|log|, Timestamp(start, f.captured), f.payloads.value)
    ensures AfterFrame(v, start, log, f) == log + all
  {
    all := if f.payloads.None? then [] else Packets(|log|, Timestamp(start, f.captured), f.payloads.value);
    if f.payloads.Some? {
      AllAttempted(v, |log|, |f.payloads.value|);
      assert all[..|all|] == all;
    }
  }

  lemma Assoc(a: seq<Packet>, b: seq<Packet>, c: seq<Packet>)
    ensures a + b + c == a + (b + c)
  {
  }

  lemma {:induction false} SentIsTheRest(v: Verdict, start: real, log: seq<Packet>, frames: seq<Frame>)
    requires forall i :: v(i)
    ensures AfterFrames(v, start, log, frames) == log + Sent(|log|, start, frames)
    decreases |frames|
  {
    if frames == [] {
    } else {
      var all := WholeFrame(v, start, log, frames[0]);
      SentIsTheRest(v, start, log + all, frames[1..]);
      Assoc(log, all, Sent(|log + all|, start, frames[1..]));
      SentUnfolds(|log|, start, frames, all);
    }
  }

  lemma SentUnfolds(n: nat, start: real, frames: seq<Frame>, all: seq<Packet>)
    requires frames != []
    requires
      var f := frames[0];
      all == if f.payloads.None? then [] else Packets(n, Timestamp(start, f.captured), f.payloads.value)
    ensures Sent(n, start, frames) == all + Sent(n + |all|, start, frames[1..])
  {
  }

  // With no failing write a receiver gets back exactly the frames, each with
  // its timestamp.
  lemma {:induction false} FramesComeBack(n: nat, start: real, frames: seq<Frame>)
    ensures Reassembled(Sent(n, start, frames), []) == Sendable(start, frames)
    decreases |frames|
  {
    if frames == [] {
    } else {
      var f, rest := frames[0], frames[1..];
      if f.payloads.None? {
        FramesComeBack(n, start, rest);
      } else {
        var payloads := f.payloads.value;
        var t := Timestamp(start, f.captured);
        FramesComeBack(n + |payloads|, start, rest);
        var later := Sent(n + |payloads|, start, rest);
        if payloads == [] {
          assert Packets(n, t, payloads) + later == later;
        } else {
          assert [] + payloads == payloads;
          FrameReassembles(n, t, payloads, [], later);
        }
      }
    }
  }

  lemma ReceiverGetsTheFrames(v: Verdict, start: real, frames: seq<Frame>)
    requires forall i :: v(i)
    ensures Reassembled(AfterFrames(v, start, [], frames), []) == Sendable(start, frames)
  {
    SentIsTheRest(v, start, [], frames);
    FramesComeBack(0, start, frames);
    assert [] + Sent(0, start, frames) == Sent(0, start, frames);
  }

  // ------------------------------------------------------------- the code

  class Track {
    const verdict: Verdict
    var log: seq<Packet>

    constructor (verdict: Verdict)
      ensures log == [] && this.verdict == verdict
    {
      this.verdict := verdict;
      log := [];
    }

    method WriteRtp(packet: Packet) returns (ok: bool)
      modifies this
      ensures log == old(log) + [packet] && ok == verdict(|old(log)|)
    {
      ok := verdict(|log|);
      log := log + [packet];
    }
  }

  class VideoSender {
    const track: Track
    const start: real
    var sequence: int

    ghost predicate Valid()
      reads this, track
    {
      sequence == |track.log| % SEQUENCES
    }

    constructor (track: Track, start: real)
      requires track.log == []
      ensures Valid() && this.track == track && this.start == start
    {
      this.track := track;
      this.start := start;
      sequence := 0;
    }

    method WriteFrame(captured: real, payloads: Option<seq<Payload>>) returns (ok: bool)
      requires Valid()
      modifies this, track
      ensures Valid()
      ensures track.log == AfterFrame(track.verdict, start, old(track.log), Frame(captured, payloads))
      ensures ok <==> payloads.Some? && AllWritten(track.verdict, |old(track.log)|, |payloads.value|)
    {
      var timestamp := Timestamp(start, captured);
      if payloads.None? {
        return false;
      }
      ok := WritePackets(timestamp, payloads.value);
    }

    // The loop over the payloads, left at the first write that fails.
    method WritePackets(timestamp: Word, payloads: seq<Payload>) returns (ok: bool)
      requires Valid()
      modifies this, track
      ensures Valid()
      ensures
        var n := |old(track.log)|;
        track.log == old(track.log) + Packets(n, timestamp, payloads)[..Attempts(track.verdict, n, |payloads|)]
      ensures ok <==> AllWritten(track.verdict, |old(track.log)|, |payloads|)
    {
      var count := |payloads|;
      ghost var v, before := track.verdict, track.log;
      ghost var n, all := |before|, Packets(|before|, timestamp, payloads);
      for i := 0 to count
        invariant Valid() && track.log == before + all[..i] && AllWritten(v, n, i)
      {
        AttemptsSoFar(v, n, count, i);
        PacketAt(n, timestamp, payloads, i);
        OneMore(before, all, i);
        var written := WritePacket(i == count - 1, timestamp, payloads[i]);
        if !written {
          assert !AllWritten(v, n, count);
          return false;
        }
      }
      AttemptsSoFar(v, n, count, count);
      return true;
    }

    // One packet, with the next sequence number whether or not it is written.
    method WritePacket(marker: bool, timestamp: Word, payload: Payload) returns (written: bool)
      requires Valid()
      modifies this, track
      ensures Valid()
      ensures track.log == old(track.log) + [Packet(marker, |old(track.log)| % SEQUENCES, timestamp, payload)]
      ensures written == track.verdict(|old(track.log)|)
    {
      var packet := Packet(marker, sequence, timestamp, payload);
      sequence := (sequence + 1) % SEQUENCES;
      written := track.WriteRtp(packet);
    }
  }

  lemma OneMore(before: seq<Packet>, all: seq<Packet>, i: nat)
    requires i < |all|
    ensures before + all[..i] + [all[i]] == before + all[..i + 1]
  {
  }
}

// The page's touch gestures (client/input.mjs). Positions, distances and times
// are exact reals; Math.hypot is any function the page is given.
module Trackpad {
  import opened Wrappers

  datatype Point = Point(x: real, y: real)

  // The touches Map, in insertion order.
  datatype Touch = Touch(id: int, at: Point)

  datatype Button = Left | Right

  datatype Input =
    | Click(button: Button)
    | Press(button: Button)
    | Release(button: Button)
    | MoveRel(dx: real, dy: real)
    | Scroll(dx: real, dy: real)

  datatype Gesture = Gesture(
    startedAt: real,
    fingers: nat,
    travelled: real,
    moved: bool,
    dragArmed: bool,
    owesClick: bool,
    dragging: bool,
    last: Point)

  // `timers` holds the timers that are set and have neither fired nor been
  // cleared.
  datatype Pad = Pad(
    touches: seq<Touch>,
    gesture: Option<Gesture>,
    heldClick: Option<nat>,
    timers: set<nat>,
    nextTimer: nat,
    sent: seq<Input>)

  // The drawn frame; the video has a size and the element is on screen.
  datatype Extent = Extent(width: real, height: real)

  type Size = s: Extent | s.width > 0.0 && s.height > 0.0 witness Extent(1.0, 1.0)

  datatype PadEvent =
    | Down(id: int, at: Point, time: real)
    | Move(id: int, at: Point, frame: Option<Size>)
    | Up(id: int, time: real, cancelled: bool)
    | Fire(timer: nat)

  type Norm = (real, real) -> real

  const TAP_SLOP_PX := 10.0
  const TAP_MAX_MS := 300.0

  const FRESH := Pad([], None, None, {}, 0, [])

  // ------------------------------------------------------------ the touches map

  function IndexOf(touches: seq<Touch>, id: int): (i: nat)
    ensures i <= |touches|
    ensures i < |touches| ==> touches[i].id == id
    ensures forall j :: 0 <= j < i ==> touches[j].id != id
  {
    if touches == [] || touches[0].id == id then 0 else 1 + IndexOf(touches[1..], id)
  }

  predicate Has(touches: seq<Touch>, id: int) { IndexOf(touches, id) < |touches| }

  function Set(touches: seq<Touch>, id: int, at: Point): seq<Touch> {
    var i := IndexOf(touches, id);
    if i < |touches| then touches[i := Touch(id, at)] else touches + [Touch(id, at)]
  }

  function Deleted(touches: seq<Touch>, id: int): seq<Touch> {
    var i := IndexOf(touches, id);
    if i < |touches| then touches[..i] + touches[i + 1..] else touches
  }

  function SumX(touches: seq<Touch>): real {
    if touches == [] then 0.0 else SumX(touches[..|touches| - 1]) + touches[|touches| - 1].at.x
  }

  function SumY(touches: seq<Touch>): real {
    if touches == [] then 0.0 else SumY(touches[..|touches| - 1]) + touches[|touches| - 1].at.y
  }

  function Centre(touches: seq<Touch>): Point
    requires touches != []
  {
    Point(SumX(touches) / |touches| as real, SumY(touches) / |touches| as real)
  }

  // ------------------------------------------------------------ the event handlers

  const LEFT_CLICK := Click(Left)

  // A first finger begins a gesture and takes over a held-back click.
  function Begun(p: Pad, time: real): Pad {
    var afterTap := p.heldClick.Some?;
    p.(timers := if afterTap then p.timers - {p.heldClick.value} else p.timers,
       heldClick := None,
       gesture := Some(Gesture(time, 1, 0.0, false, afterTap, afterTap, false, Point(0.0, 0.0))))
  }

  // A second finger makes it a two-finger gesture.
  function Joined(g: Gesture, sent: seq<Input>): (Gesture, seq<Input>) {
    var sent1 := if g.owesClick then sent + [LEFT_CLICK] else sent;
    var sent2 := if g.dragging then sent1 + [Release(Left)] else sent1;
    (g.(fingers := 2, dragArmed := false, owesClick := false, dragging := false), sent2)
  }

  function OnDown(p: Pad, id: int, at: Point, time: real): Pad {
    var p1 := if p.touches == [] then Begun(p, time) else p;
    var touches := Set(p.touches, id, at);
    if p1.gesture.None? then p1.(touches := touches)
    else
      var (g, sent) :=
        if |touches| >= 2 && p1.gesture.value.fingers == 1 then Joined(p1.gesture.value, p1.sent)
        else (p1.gesture.value, p1.sent);
      p1.(touches := touches, gesture := Some(g.(last := Centre(touches))), sent := sent)
  }

  function OnMove(hypot: Norm, p: Pad, id: int, at: Point, frame: Option<Size>): Pad {
    if !Has(p.touches, id) || p.gesture.None? then p
    else
      var touches := Set(p.touches, id, at);
      var centre := Centre(touches);
      var g := p.gesture.value;
      var dx, dy := centre.x - g.last.x, centre.y - g.last.y;
      var g1 := g.(last := centre, travelled := g.travelled + hypot(dx, dy));
      var p1 := p.(touches := touches, gesture := Some(g1));
      if !g1.moved && g1.travelled < TAP_SLOP_PX then p1
      else
        var g2 := g1.(moved := true);
        if frame.None? then p1.(gesture := Some(g2))
        else
          var fx, fy := dx / frame.value.width, dy / frame.value.height;
          if g2.fingers == 2 then p1.(gesture := Some(g2), sent := p.sent + [Scroll(fx, fy)])
          else if g2.dragArmed && !g2.dragging then
            p1.(gesture := Some(g2.(dragging := true, owesClick := false)),
                sent := p.sent + [Press(Left), MoveRel(fx, fy)])
          else p1.(gesture := Some(g2), sent := p.sent + [MoveRel(fx, fy)])
  }

  // The last finger lifts.
  function Ended(p: Pad, g: Gesture, time: real, cancelled: bool): Pad {
    var p1 := p.(touches := [], gesture := None);
    if g.dragging then p1.(sent := p.sent + [Release(Left)])
    else
      var p2 := if g.owesClick then p1.(sent := p.sent + [LEFT_CLICK]) else p1;
      if cancelled || g.moved || time - g.startedAt > TAP_MAX_MS then p2
      else if g.fingers == 2 then p2.(sent := p2.sent + [Click(Right)])
      else if g.owesClick then p2.(sent := p2.sent + [LEFT_CLICK])
      else p2.(heldClick := Some(p.nextTimer), timers := p.timers + {p.nextTimer}, nextTimer := p.nextTimer + 1)
  }

  function OnUp(p: Pad, id: int, time: real, cancelled: bool): Pad {
    if !Has(p.touches, id) || p.gesture.None? then p
    else
      var touches := Deleted(p.touches, id);
      if touches != [] then p.(touches := touches, gesture := Some(p.gesture.value.(last := Centre(touches))))
      else Ended(p, p.gesture.value, time, cancelled)
  }

  function OnFire(p: Pad, timer: nat): Pad {
    if timer in p.timers then p.(timers := p.timers - {timer}, heldClick := None, sent := p.sent + [LEFT_CLICK]) else p
  }

  function PadNext(hypot: Norm, p: Pad, e: PadEvent): Pad {
    match e
    case Down(id, at, time) => OnDown(p, id, at, time)
    case Move(id, at, frame) => OnMove(hypot, p, id, at, frame)
    case Up(id, time, cancelled) => OnUp(p, id, time, cancelled)
    case Fire(timer) => OnFire(p, timer)
  }

  function PadRun(hypot: Norm, p: Pad, events: seq<PadEvent>): Pad
    decreases |events|
  {
    if events == [] then p else PadRun(hypot, PadNext(hypot, p, events[0]), events[1..])
  }

  // ----------------------------------------------------------- what every run keeps

  ghost predicate DistinctIds(touches: seq<Touch>) {
    forall i, j :: 0 <= i < j < |touches| ==> touches[i].id != touches[j].id
  }

  ghost predicate GestureOk(g: Gesture, touches: seq<Touch>) {
    && touches != [] && g.last == Centre(touches)
    && (g.fingers == 1 || g.fingers == 2) && (|touches| >= 2 ==> g.fingers == 2)
    && (g.dragging ==> g.moved && g.dragArmed)
    && (g.dragArmed ==> g.fingers == 1)
    && (g.owesClick <==> g.dragArmed && !g.dragging)
    && (!g.moved ==> g.travelled < TAP_SLOP_PX)
  }

  ghost predicate PadOk(p: Pad) {
    && DistinctIds(p.touches)
    && (p.gesture.Some? <==> p.touches != [])
    && (p.gesture.Some? ==> GestureOk(p.gesture.value, p.touches))
    && (p.heldClick.Some? ==> p.gesture.None? && p.heldClick.value < p.nextTimer)
    // The only live timer is the held-back click's.
    && p.timers == if p.heldClick.Some? then {p.heldClick.value} else {}
  }

  lemma SetDistinct(touches: seq<Touch>, id: int, at: Point)
    requires DistinctIds(touches)
    ensures DistinctIds(Set(touches, id, at)) && Set(touches, id, at) != []
    ensures |Set(touches, id, at)| == if Has(touches, id) then |touches| else |touches| + 1
  {
  }

  lemma DeletedDistinct(touches: seq<Touch>, id: int)
    requires DistinctIds(touches)
    ensures DistinctIds(Deleted(touches, id)) && |Deleted(touches, id)| <= |touches|
  {
  }

  lemma PadOkStep(hypot: Norm, p: Pad, e: PadEvent)
    requires PadOk(p)
    ensures PadOk(PadNext(hypot, p, e))
  {
    match e
    case Down(id, at, time) =>
      SetDistinct(p.touches, id, at);
      DownOk(p, id, at, time);
    case Move(id, at, frame) =>
      SetDistinct(p.touches, id, at);
      MoveOk(hypot, p, id, at, frame);
    case Up(id, time, cancelled) =>
      UpOk(p, id, time, cancelled);
    case Fire(timer) => FireOk(p, timer);
  }

  lemma UpOk(p: Pad, id: int, time: real, cancelled: bool)
    requires PadOk(p)
    ensures PadOk(OnUp(p, id, time, cancelled))
  {
    var touches := Deleted(p.touches, id);
    DeletedDistinct(p.touches, id);
    if Has(p.touches, id) && p.gesture.Some? {
      if touches == [] {
        EndedOk(p, p.gesture.value, time, cancelled);
      } else {
        assert GestureOk(p.gesture.value.(last := Centre(touches)), touches);
      }
    }
  }

  lemma EndedOk(p: Pad, g: Gesture, time: real, cancelled: bool)
    requires p.gesture == Some(g) && p.heldClick.None? && p.timers == {}
    ensures PadOk(Ended(p, g, time, cancelled))
  {
  }

  lemma FireOk(p: Pad, timer: nat)
    requires PadOk(p)
    ensures PadOk(OnFire(p, timer))
  {
  }

  lemma DownOk(p: Pad, id: int, at: Point, time: real)
    requires PadOk(p) && DistinctIds(Set(p.touches, id, at)) && Set(p.touches, id, at) != []
    requires |Set(p.touches, id, at)| >= |p.touches|
    ensures PadOk(OnDown(p, id, at, time))
  {
    if p.touches == [] {
      FirstDownOk(p, id, at, time);
    } else {
      NextDownOk(p, id, at, time);
    }
  }

  lemma FirstDownOk(p: Pad, id: int, at: Point, time: real)
    requires PadOk(p) && p.touches == []
    ensures PadOk(OnDown(p, id, at, time))
  {
    var n := OnDown(p, id, at, time);
    var afterTap := p.heldClick.Some?;
    var touches := [Touch(id, at)];
    assert Set(p.touches, id, at) == touches;
    FirstGestureOk(n, Gesture(time, 1, 0.0, false, afterTap, afterTap, false, Centre(touches)), touches);
  }

  // A gesture that has just begun, with the state it leaves.
  lemma FirstGestureOk(n: Pad, g: Gesture, touches: seq<Touch>)
    requires n.gesture == Some(g) && n.touches == touches && |touches| == 1 && n.heldClick.None? && n.timers == {}
    requires g.fingers == 1 && g.travelled == 0.0 && !g.moved && !g.dragging && g.dragArmed == g.owesClick
    requires g.last == Centre(touches)
    ensures PadOk(n)
  {
    assert GestureOk(g, touches);
  }

  lemma NextDownOk(p: Pad, id: int, at: Point, time: real)
    requires PadOk(p) && p.touches != [] && DistinctIds(Set(p.touches, id, at))
    requires |Set(p.touches, id, at)| >= |p.touches|
    ensures PadOk(OnDown(p, id, at, time))
  {
    var touches := Set(p.touches, id, at);
    assert touches != [] && p.gesture.Some?;
    assert GestureOk(OnDown(p, id, at, time).gesture.value, touches);
  }

  lemma MoveOk(hypot: Norm, p: Pad, id: int, at: Point, frame: Option<Size>)
    requires PadOk(p) && DistinctIds(Set(p.touches, id, at)) && Set(p.touches, id, at) != []
    requires Has(p.touches, id) ==> |Set(p.touches, id, at)| == |p.touches|
    ensures PadOk(OnMove(hypot, p, id, at, frame))
  {
  }

  // ------------------------------------------------------------- taps are conserved

  function Count(sent: seq<Input>, m: Input): nat {
    if sent == [] then 0 else Count(sent[..|sent| - 1], m) + if sent[|sent| - 1] == m then 1 else 0
  }

  lemma CountAppend(sent: seq<Input>, last: Input, m: Input)
    ensures Count(sent + [last], m) == Count(sent, m) + if last == m then 1 else 0
  {
    assert (sent + [last])[..|sent|] == sent;
  }

  // One message more changes the clicks and the presses by itself only.
  lemma CountsAppend(sent: seq<Input>, last: Input)
    ensures Count(sent + [last], LEFT_CLICK) == Count(sent, LEFT_CLICK) + if last == LEFT_CLICK then 1 else 0
    ensures Count(sent + [last], Press(Left)) == Count(sent, Press(Left)) + if last == Press(Left) then 1 else 0
  {
    CountAppend(sent, last, LEFT_CLICK);
    CountAppend(sent, last, Press(Left));
  }

  // The lift that completes a one-finger tap: the only finger goes up, it
  // stayed within the slop, in time, and the browser did not take it.
  predicate CompletesTap(p: Pad, e: PadEvent) {
    && e.Up? && !e.cancelled
    && |p.touches| == 1 && p.touches[0].id == e.id
    && p.gesture.Some? && p.gesture.value.fingers == 1 && !p.gesture.value.moved
    && e.time - p.gesture.value.startedAt <= TAP_MAX_MS
  }

  function Taps(hypot: Norm, p: Pad, events: seq<PadEvent>): nat
    decreases |events|
  {
    if events == [] then 0
    else (if CompletesTap(p, events[0]) then 1 else 0) + Taps(hypot, PadNext(hypot, p, events[0]), events[1..])
  }

  function HeldBack(p: Pad): nat { if p.heldClick.Some? then 1 else 0 }

  function Owed(p: Pad): nat { if p.gesture.Some? && p.gesture.value.owesClick then 1 else 0 }

  // Where completed taps have gone: clicks sent, the held-back click, the
  // click a gesture owes, and drags started.
  function Accounted(p: Pad): nat { Count(p.sent, LEFT_CLICK) + HeldBack(p) + Owed(p) + Count(p.sent, Press(Left)) }

  lemma TapStep(hypot: Norm, p: Pad, e: PadEvent)
    requires PadOk(p)
    ensures Accounted(PadNext(hypot, p, e)) == Accounted(p) + if CompletesTap(p, e) then 1 else 0
    ensures DragStartIsPaid(p, PadNext(hypot, p, e))
  {
    match e
    case Up(id, time, cancelled) => TapUp(p, id, time, cancelled);
    case Down(id, at, time) => TapDown(p, id, at, time);
    case Move(id, at, frame) => TapMove(hypot, p, id, at, frame);
    case Fire(timer) => CountsAppend(p.sent, LEFT_CLICK);
  }

  // Drags starting between two states: none, or one, which spends exactly one
  // owed click.
  ghost predicate DragStartIsPaid(p: Pad, n: Pad) {
    || Count(n.sent, Press(Left)) == Count(p.sent, Press(Left))
    || (Count(n.sent, Press(Left)) == Count(p.sent, Press(Left)) + 1 && Owed(p) == 1 && Owed(n) == 0
        && Count(n.sent, LEFT_CLICK) == Count(p.sent, LEFT_CLICK))
  }

  lemma JoinedPays(g: Gesture, sent: seq<Input>) returns (joined: seq<Input>)
    requires !g.owesClick || !g.dragging
    ensures joined == Joined(g, sent).1
    ensures Count(joined, Press(Left)) == Count(sent, Press(Left))
    ensures Count(joined, LEFT_CLICK) == Count(sent, LEFT_CLICK) + if g.owesClick then 1 else 0
  {
    joined := Joined(g, sent).1;
    CountsAppend(sent, LEFT_CLICK);
    CountsAppend(sent, Release(Left));
  }

  lemma FirstTapDown(p: Pad, id: int, at: Point, time: real)
    requires PadOk(p) && p.touches == []
    ensures
      var n := OnDown(p, id, at, time);
      n.sent == p.sent && HeldBack(n) == 0 && Owed(n) == HeldBack(p) && Owed(p) == 0
  {
    assert Set(p.touches, id, at) == [Touch(id, at)];
  }

  // A further finger: it makes the gesture a two-finger one, or it already is.
  lemma NextTapDown(p: Pad, id: int, at: Point, time: real) returns (n: Pad)
    requires PadOk(p) && p.touches != []
    ensures n == OnDown(p, id, at, time) && HeldBack(n) == HeldBack(p)
    ensures
      || (n.sent == p.sent && Owed(n) == Owed(p))
      || (n.sent == Joined(p.gesture.value, p.sent).1 && Owed(n) == 0)
  {
    n := OnDown(p, id, at, time);
    SetDistinct(p.touches, id, at);
  }

  lemma TapDown(p: Pad, id: int, at: Point, time: real)
    requires PadOk(p)
    ensures Accounted(OnDown(p, id, at, time)) == Accounted(p)
    ensures Count(OnDown(p, id, at, time).sent, Press(Left)) == Count(p.sent, Press(Left))
  {
    if p.touches == [] {
      FirstTapDown(p, id, at, time);
    } else {
      var n := NextTapDown(p, id, at, time);
      var joined := JoinedPays(p.gesture.value, p.sent);
    }
  }

  predicate IsMotion(m: Input) { m.MoveRel? || m.Scroll? }

  // What a moving finger sends: nothing, a movement, or a press that spends the
  // owed click and then a movement.
  lemma MoveSends(hypot: Norm, p: Pad, id: int, at: Point, frame: Option<Size>) returns (n: Pad, m: Input)
    requires PadOk(p)
    ensures n == OnMove(hypot, p, id, at, frame) && n.heldClick == p.heldClick && IsMotion(m)
    ensures
      || (n.sent == p.sent && Owed(n) == Owed(p))
      || (n.sent == p.sent + [m] && Owed(n) == Owed(p))
      || (n.sent == p.sent + [Press(Left)] + [m] && Owed(p) == 1 && Owed(n) == 0)
  {
    n := OnMove(hypot, p, id, at, frame);
    m := if n.sent == p.sent then Scroll(0.0, 0.0) else n.sent[|n.sent| - 1];
  }

  lemma TapMove(hypot: Norm, p: Pad, id: int, at: Point, frame: Option<Size>)
    requires PadOk(p)
    ensures Accounted(OnMove(hypot, p, id, at, frame)) == Accounted(p)
    ensures DragStartIsPaid(p, OnMove(hypot, p, id, at, frame))
  {
    var n, m := MoveSends(hypot, p, id, at, frame);
    CountsAppend(p.sent, m);
    CountsAppend(p.sent, Press(Left));
    CountsAppend(p.sent + [Press(Left)], m);
  }

  lemma TapUp(p: Pad, id: int, time: real, cancelled: bool)
    requires PadOk(p)
    ensures Accounted(OnUp(p, id, time, cancelled))
         == Accounted(p) + if CompletesTap(p, Up(id, time, cancelled)) then 1 else 0
    ensures Count(OnUp(p, id, time, cancelled).sent, Press(Left)) == Count(p.sent, Press(Left))
  {
    if Has(p.touches, id) && Deleted(p.touches, id) == [] {
      assert p.touches == [p.touches[0]] && p.touches[0].id == id;
      TapEnd(p, p.gesture.value, time, cancelled);
    }
  }

  lemma TapEnd(p: Pad, g: Gesture, time: real, cancelled: bool)
    requires p.gesture == Some(g) && p.heldClick.None? && (g.fingers == 1 || g.fingers == 2)
    requires g.dragging ==> g.moved && !g.owesClick
    requires g.owesClick ==> g.fingers == 1
    ensures
      var tap := !cancelled && g.fingers == 1 && !g.moved && time - g.startedAt <= TAP_MAX_MS;
      Accounted(Ended(p, g, time, cancelled)) == Accounted(p) + if tap then 1 else 0
    ensures Count(Ended(p, g, time, cancelled).sent, Press(Left)) == Count(p.sent, Press(Left))
  {
    CountsAppend(p.sent, Release(Left));
    CountsAppend(p.sent, LEFT_CLICK);
    CountsAppend(p.sent, Click(Right));
    CountsAppend(p.sent + [LEFT_CLICK], LEFT_CLICK);
    CountsAppend(p.sent + [LEFT_CLICK], Click(Right));
  }

  lemma {:induction false} TapsAreConserved(hypot: Norm, p: Pad, events: seq<PadEvent>)
    requires PadOk(p)
    ensures PadOk(PadRun(hypot, p, events))
    ensures Accounted(PadRun(hypot, p, events)) == Accounted(p) + Taps(hypot, p, events)
    decreases |events|
  {
    if events == [] {
    } else {
      PadOkStep(hypot, p, events[0]);
      TapStep(hypot, p, events[0]);
      TapsAreConserved(hypot, PadNext(hypot, p, events[0]), events[1..]);
    }
  }

  // ------------------------------------------------------------- presses and releases

  function Held(sent: seq<Input>): int {
    if sent == [] then 0
    else
      var last := sent[|sent| - 1];
      Held(sent[..|sent| - 1]) + if last == Press(Left) then 1 else if last == Release(Left) then -1 else 0
  }

  // Presses and releases alternate from the start, and no click falls between
  // a press and its release.
  ghost predicate WellPaired(sent: seq<Input>) {
    sent == []
    || (WellPaired(sent[..|sent| - 1])
        && 0 <= Held(sent) <= 1
        && (sent[|sent| - 1].Click? ==> Held(sent) == 0))
  }

  lemma PairedAppend(sent: seq<Input>, m: Input)
    requires WellPaired(sent)
    requires m == Press(Left) ==> Held(sent) == 0
    requires m == Release(Left) ==> Held(sent) == 1
    requires m.Click? ==> Held(sent) == 0
    ensures WellPaired(sent + [m])
    ensures Held(sent + [m]) == Held(sent) + if m == Press(Left) then 1 else if m == Release(Left) then -1 else 0
  {
    assert (sent + [m])[..|sent|] == sent;
  }

  predicate Dragging(p: Pad) { p.gesture.Some? && p.gesture.value.dragging }

  ghost predicate ButtonOk(p: Pad) {
    WellPaired(p.sent) && Held(p.sent) == if Dragging(p) then 1 else 0
  }

  lemma ButtonStep(hypot: Norm, p: Pad, e: PadEvent)
    requires PadOk(p) && ButtonOk(p)
    ensures ButtonOk(PadNext(hypot, p, e))
  {
    match e
    case Down(id, at, time) => ButtonDown(p, id, at, time);
    case Move(id, at, frame) => ButtonMove(hypot, p, id, at, frame);
    case Up(id, time, cancelled) => ButtonUp(p, id, time, cancelled);
    case Fire(_) =>
      if !Dragging(p) {
        PairedAppend(p.sent, LEFT_CLICK);
      }
  }

  lemma ButtonDown(p: Pad, id: int, at: Point, time: real)
    requires PadOk(p) && ButtonOk(p)
    ensures ButtonOk(OnDown(p, id, at, time))
  {
    if Dragging(p) {
      PairedAppend(p.sent, Release(Left));
    } else {
      PairedAppend(p.sent, LEFT_CLICK);
    }
  }

  lemma ButtonMove(hypot: Norm, p: Pad, id: int, at: Point, frame: Option<Size>)
    requires PadOk(p) && ButtonOk(p)
    ensures ButtonOk(OnMove(hypot, p, id, at, frame))
  {
    var n, m := MoveSends(hypot, p, id, at, frame);
    if n.sent == p.sent + [Press(Left)] + [m] {
      PairedAppend(p.sent, Press(Left));
      PairedAppend(p.sent + [Press(Left)], m);
    } else if n.sent == p.sent + [m] {
      PairedAppend(p.sent, m);
    }
  }

  lemma ButtonUp(p: Pad, id: int, time: real, cancelled: bool)
    requires PadOk(p) && ButtonOk(p)
    ensures ButtonOk(OnUp(p, id, time, cancelled))
  {
    if Has(p.touches, id) && Deleted(p.touches, id) == [] {
      EndedButton(p, p.gesture.value, time, cancelled);
    }
  }

  lemma EndedButton(p: Pad, g: Gesture, time: real, cancelled: bool)
    requires ButtonOk(p) && p.gesture == Some(g)
    ensures ButtonOk(Ended(p, g, time, cancelled))
  {
    if g.dragging {
      PairedAppend(p.sent, Release(Left));
    } else {
      PairedAppend(p.sent, LEFT_CLICK);
      PairedAppend(p.sent, Click(Right));
      PairedAppend(p.sent + [LEFT_CLICK], LEFT_CLICK);
      PairedAppend(p.sent + [LEFT_CLICK], Click(Right));
    }
  }

  // In every prefix of every run: the button is down exactly while a gesture
  // drags, and no click is sent while it is.
  lemma {:induction false} ButtonIsHeldOnlyWhileDragging(hypot: Norm, p: Pad, events: seq<PadEvent>)
    requires PadOk(p) && ButtonOk(p)
    ensures PadOk(PadRun(hypot, p, events)) && ButtonOk(PadRun(hypot, p, events))
    decreases |events|
  {
    if events == [] {
    } else {
      PadOkStep(hypot, p, events[0]);
      ButtonStep(hypot, p, events[0]);
      ButtonIsHeldOnlyWhileDragging(hypot, PadNext(hypot, p, events[0]), events[1..]);
    }
  }

  lemma FreshPadIsOk()
    ensures PadOk(FRESH) && ButtonOk(FRESH) && Accounted(FRESH) == 0
  {
  }

  // ------------------------------------------------------------- distances

  lemma {:induction false} SumSet(touches: seq<Touch>, i: nat, at: Point)
    requires i < |touches|
    ensures SumX(touches[i := Touch(touches[i].id, at)]) == SumX(touches) - touches[i].at.x + at.x
    ensures SumY(touches[i := Touch(touches[i].id, at)]) == SumY(touches) - touches[i].at.y + at.y
  {
    var last := |touches| - 1;
    var moved := touches[i := Touch(touches[i].id, at)];
    if i < last {
      SumSet(touches[..last], i, at);
      assert moved[..last] == touches[..last][i := Touch(touches[i].id, at)];
    } else {
      assert moved[..last] == touches[..last];
    }
  }

  lemma DivSub(x: real, y: real, n: real)
    requires n != 0.0
    ensures x / n - y / n == (x - y) / n
  {
  }

  lemma DivOne(x: real, n: real)
    requires n == 1.0
    ensures x / n == x
  {
  }

  // The finger an event names, where it was before.
  function Before(p: Pad, id: int): Point
    requires Has(p.touches, id)
  {
    p.touches[IndexOf(p.touches, id)].at
  }

  // Moving one of n fingers moves the measured centre by exactly 1/n of it,
  // whatever fingers landed or lifted before.
  lemma CentreFollows(p: Pad, id: int, at: Point)
    requires PadOk(p) && Has(p.touches, id)
    ensures
      var n := |p.touches| as real;
      var centre := Centre(Set(p.touches, id, at));
      && centre.x - p.gesture.value.last.x == (at.x - Before(p, id).x) / n
      && centre.y - p.gesture.value.last.y == (at.y - Before(p, id).y) / n
  {
    var i := IndexOf(p.touches, id);
    var n := |p.touches| as real;
    SumSet(p.touches, i, at);
    DivSub(SumX(Set(p.touches, id, at)), SumX(p.touches), n);
    DivSub(SumY(Set(p.touches, id, at)), SumY(p.touches), n);
  }

  // Total cursor distance sent so far.
  function TotalX(sent: seq<Input>): real {
    if sent == [] then 0.0
    else TotalX(sent[..|sent| - 1]) + if sent[|sent| - 1].MoveRel? then sent[|sent| - 1].dx else 0.0
  }

  function TotalY(sent: seq<Input>): real {
    if sent == [] then 0.0
    else TotalY(sent[..|sent| - 1]) + if sent[|sent| - 1].MoveRel? then sent[|sent| - 1].dy else 0.0
  }

  lemma TotalAppend(sent: seq<Input>, m: Input)
    ensures TotalX(sent + [m]) == TotalX(sent) + if m.MoveRel? then m.dx else 0.0
    ensures TotalY(sent + [m]) == TotalY(sent) + if m.MoveRel? then m.dy else 0.0
  {
    assert (sent + [m])[..|sent|] == sent;
  }

  // Fingers landing and lifting, and timers, send no distance at all.
  lemma OnlyMovesSendMotion(hypot: Norm, p: Pad, e: PadEvent)
    requires PadOk(p) && !e.Move?
    ensures SendsNoMotion(p.sent, PadNext(hypot, p, e).sent)
  {
    match e
    case Down(id, at, time) => DownSendsNoMotion(p, id, at, time);
    case Up(id, time, cancelled) => UpSendsNoMotion(p, id, time, cancelled);
    case Fire(timer) =>
  }

  ghost predicate SendsNoMotion(sent: seq<Input>, longer: seq<Input>) {
    sent <= longer && forall i :: |sent| <= i < |longer| ==> !IsMotion(longer[i])
  }

  lemma DownSendsNoMotion(p: Pad, id: int, at: Point, time: real)
    requires PadOk(p)
    ensures SendsNoMotion(p.sent, OnDown(p, id, at, time).sent)
  {
    if p.touches == [] {
      FirstTapDown(p, id, at, time);
    } else {
      var n := NextTapDown(p, id, at, time);
      JoinedSendsNoMotion(p.gesture.value, p.sent);
    }
  }

  lemma JoinedSendsNoMotion(g: Gesture, sent: seq<Input>)
    ensures SendsNoMotion(sent, Joined(g, sent).1)
  {
  }

  lemma UpSendsNoMotion(p: Pad, id: int, time: real, cancelled: bool)
    requires PadOk(p)
    ensures SendsNoMotion(p.sent, OnUp(p, id, time, cancelled).sent)
  {
    if Has(p.touches, id) && Deleted(p.touches, id) == [] {
      EndedSendsNoMotion(p, p.gesture.value, time, cancelled);
    }
  }

  lemma EndedSendsNoMotion(p: Pad, g: Gesture, time: real, cancelled: bool)
    ensures SendsNoMotion(p.sent, Ended(p, g, time, cancelled).sent)
  {
  }

  // ------------------------------------------------------------- one finger sliding

  function Slide(hypot: Norm, p: Pad, id: int, path: seq<Point>, frame: Size): Pad
    decreases |path|
  {
    if path == [] then p else Slide(hypot, OnMove(hypot, p, id, path[0], Some(frame)), id, path[1..], frame)
  }

  // Where the finger is after `k` points of a path that starts at `from`.
  function Position(from: Point, path: seq<Point>, k: nat): Point
    requires k <= |path|
  {
    if k == 0 then from else path[k - 1]
  }

  predicate OneFinger(p: Pad, id: int, at: Point) {
    p.touches == [Touch(id, at)] && p.gesture.Some? && p.gesture.value.fingers == 1
  }

  lemma SlideStep(hypot: Norm, p: Pad, id: int, from: Point, to: Point, frame: Size)
    requires PadOk(p) && OneFinger(p, id, from)
    ensures
      var n := OnMove(hypot, p, id, to, Some(frame));
      && PadOk(n) && OneFinger(n, id, to)
      && (p.gesture.value.moved ==> n.gesture.value.moved)
      && TotalX(n.sent) - TotalX(p.sent) == (if n.gesture.value.moved then (to.x - from.x) / frame.width else 0.0)
      && TotalY(n.sent) - TotalY(p.sent) == (if n.gesture.value.moved then (to.y - from.y) / frame.height else 0.0)
  {
    var n := OnMove(hypot, p, id, to, Some(frame));
    PadOkStep(hypot, p, Move(id, to, Some(frame)));
    CentreFollows(p, id, to);
    assert Set(p.touches, id, to) == [Touch(id, to)];
    DivOne(to.x - from.x, |p.touches| as real);
    DivOne(to.y - from.y, |p.touches| as real);
    if n.gesture.value.moved {
      var m := MoveRel((to.x - from.x) / frame.width, (to.y - from.y) / frame.height);
      assert [Press(Left), m] == [Press(Left)] + [m];
      assert n.sent == p.sent + [m] || n.sent == p.sent + [Press(Left)] + [m];
      TotalAppend(p.sent, m);
      TotalAppend(p.sent, Press(Left));
      TotalAppend(p.sent + [Press(Left)], m);
    }
  }

  // The gesture has travelled past the slop.
  predicate Crossed(p: Pad) { p.gesture.Some? && p.gesture.value.moved }

  // What the distances sent between two states add up to, for a finger that
  // went from `a` to `b`.
  ghost predicate Covers(p: Pad, n: Pad, a: Point, b: Point, frame: Size) {
    && TotalX(n.sent) - TotalX(p.sent) == (b.x - a.x) / frame.width
    && TotalY(n.sent) - TotalY(p.sent) == (b.y - a.y) / frame.height
  }

  lemma CoversJoin(p: Pad, n: Pad, m: Pad, a: Point, b: Point, c: Point, frame: Size)
    requires Covers(p, n, a, b, frame) && Covers(n, m, b, c, frame)
    ensures Covers(p, m, a, c, frame)
  {
    DivSub(c.x - a.x, b.x - a.x, frame.width);
    DivSub(c.y - a.y, b.y - a.y, frame.height);
  }

  lemma CoversSkip(p: Pad, n: Pad, m: Pad, a: Point, b: Point, frame: Size)
    requires TotalX(n.sent) == TotalX(p.sent) && TotalY(n.sent) == TotalY(p.sent) && Covers(n, m, a, b, frame)
    ensures Covers(p, m, a, b, frame)
  {
  }

  // How many points of the path come before the one that crosses the slop.
  function BeforeCrossing(hypot: Norm, p: Pad, id: int, path: seq<Point>, frame: Size): (k: nat)
    ensures k <= |path|
    decreases |path|
  {
    if path == [] then 0
    else
      var n := OnMove(hypot, p, id, path[0], Some(frame));
      if Crossed(n) then 0 else 1 + BeforeCrossing(hypot, n, id, path[1..], frame)
  }

  // The distances sent telescope: they add up to the finger's way from just
  // before the slop was crossed to where it is now.
  lemma {:induction false} SlideTelescopes(hypot: Norm, p: Pad, id: int, from: Point, path: seq<Point>, frame: Size)
    requires PadOk(p) && OneFinger(p, id, from)
    ensures
      var n := Slide(hypot, p, id, path, frame);
      var k, end := BeforeCrossing(hypot, p, id, path, frame), Position(from, path, |path|);
      PadOk(n) && OneFinger(n, id, end) && Covers(p, n, Position(from, path, k), end, frame)
    decreases |path|
  {
    if path == [] {
      assert Covers(p, p, from, from, frame);
    } else {
      var n := SlideStepState(hypot, p, id, from, path[0], frame);
      var rest := path[1..];
      SlideTelescopes(hypot, n, id, path[0], rest, frame);
      SlideUnfolds(hypot, p, n, id, path, frame);
      PositionUnfolds(from, path, BeforeCrossing(hypot, n, id, rest, frame));
      PositionUnfolds(from, path, |rest|);
      var m := Slide(hypot, n, id, rest, frame);
      var end := Position(path[0], rest, |rest|);
      if Crossed(n) {
        CrossedAlready(hypot, n, id, rest, frame);
        CoversJoin(p, n, m, from, path[0], end, frame);
      } else {
        CoversSkip(p, n, m, Position(path[0], rest, BeforeCrossing(hypot, n, id, rest, frame)), end, frame);
      }
    }
  }

  lemma PositionUnfolds(from: Point, path: seq<Point>, k: nat)
    requires path != [] && k <= |path| - 1
    ensures Position(from, path, k + 1) == Position(path[0], path[1..], k)
  {
  }

  lemma CrossedAlready(hypot: Norm, p: Pad, id: int, path: seq<Point>, frame: Size)
    requires Crossed(p) && PadOk(p) && (exists at :: OneFinger(p, id, at))
    ensures BeforeCrossing(hypot, p, id, path, frame) == 0
  {
    if path != [] {
      var at :| OneFinger(p, id, at);
      var n := SlideStepState(hypot, p, id, at, path[0], frame);
    }
  }

  // SlideStep with the new state named, so that what it looks like inside
  // stays out of the way.
  lemma SlideStepState(hypot: Norm, p: Pad, id: int, from: Point, to: Point, frame: Size) returns (n: Pad)
    requires PadOk(p) && OneFinger(p, id, from)
    ensures n == OnMove(hypot, p, id, to, Some(frame))
    ensures PadOk(n) && OneFinger(n, id, to) && (Crossed(p) ==> Crossed(n))
    ensures if Crossed(n) then Covers(p, n, from, to, frame)
            else TotalX(n.sent) == TotalX(p.sent) && TotalY(n.sent) == TotalY(p.sent)
  {
    n := OnMove(hypot, p, id, to, Some(frame));
    SlideStep(hypot, p, id, from, to, frame);
  }

  lemma SlideUnfolds(hypot: Norm, p: Pad, n: Pad, id: int, path: seq<Point>, frame: Size)
    requires path != [] && n == OnMove(hypot, p, id, path[0], Some(frame))
    ensures Slide(hypot, p, id, path, frame) == Slide(hypot, n, id, path[1..], frame)
  {
  }

  // The point it counts up to is the one that crosses the slop.
  lemma {:induction false} CrossesThere(hypot: Norm, p: Pad, id: int, from: Point, path: seq<Point>, frame: Size)
    requires PadOk(p) && OneFinger(p, id, from) && !Crossed(p)
    ensures
      var k := BeforeCrossing(hypot, p, id, path, frame);
      && !Crossed(Slide(hypot, p, id, path[..k], frame))
      && (k < |path| ==> Crossed(Slide(hypot, p, id, path[..k + 1], frame)))
    decreases |path|
  {
    if path == [] {
    } else {
      var n := SlideStepState(hypot, p, id, from, path[0], frame);
      var rest := path[1..];
      if Crossed(n) {
        SlideOf(hypot, p, n, id, path, frame, 0);
      } else {
        CrossesThere(hypot, n, id, path[0], rest, frame);
        var k := BeforeCrossing(hypot, n, id, rest, frame);
        SlideOf(hypot, p, n, id, path, frame, k);
        if k < |rest| {
          SlideOf(hypot, p, n, id, path, frame, k + 1);
        }
      }
    }
  }

  // Sliding along one point more than the rest of the path does.
  lemma SlideOf(hypot: Norm, p: Pad, n: Pad, id: int, path: seq<Point>, frame: Size, k: nat)
    requires k < |path| && n == OnMove(hypot, p, id, path[0], Some(frame))
    ensures Slide(hypot, p, id, path[..k + 1], frame) == Slide(hypot, n, id, path[1..][..k], frame)
  {
    SlideUnfolds(hypot, p, n, id, path[..k + 1], frame);
    assert path[..k + 1][1..] == path[1..][..k];
  }
}

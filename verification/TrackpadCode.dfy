// createTrackpad as the code it is: variables updated by the event handlers.
// Each handler takes exactly the step of Trackpad it stands for.
module TrackpadCode {
  import opened Wrappers
  import opened Trackpad

  class TouchTrackpad {
    const hypot: Norm
    var touches: seq<Touch>
    var gesture: Option<Gesture>
    var heldClick: Option<nat>
    var timers: set<nat>
    var nextTimer: nat
    var sent: seq<Input>

    ghost function State(): Pad
      reads this
    {
      Pad(touches, gesture, heldClick, timers, nextTimer, sent)
    }

    constructor (hypot: Norm)
      ensures State() == FRESH && this.hypot == hypot
    {
      this.hypot := hypot;
      touches, gesture, heldClick := [], None, None;
      timers, nextTimer, sent := {}, 0, [];
    }

    method Send(m: Input)
      modifies this`sent
      ensures sent == old(sent) + [m]
    {
      sent := sent + [m];
    }

    method TouchCentre() returns (c: Point)
      requires touches != []
      ensures c == Centre(touches)
    {
      var x, y := 0.0, 0.0;
      for i := 0 to |touches|
        invariant x == SumX(touches[..i]) && y == SumY(touches[..i])
      {
        assert touches[..i + 1][..i] == touches[..i];
        x, y := x + touches[i].at.x, y + touches[i].at.y;
      }
      assert touches[..|touches|] == touches;
      c := Point(x / |touches| as real, y / |touches| as real);
    }

    method SetTouch(id: int, at: Point)
      modifies this`touches
      ensures touches == Set(old(touches), id, at) && touches != []
    {
      var i := IndexOf(touches, id);
      if i < |touches| {
        touches := touches[i := Touch(id, at)];
      } else {
        touches := touches + [Touch(id, at)];
      }
    }

    method HandleDown(id: int, at: Point, time: real)
      requires PadOk(State())
      modifies this
      ensures State() == OnDown(old(State()), id, at, time)
    {
      if touches == [] {
        var afterTap := heldClick.Some?;
        if afterTap {
          timers := timers - {heldClick.value};
          heldClick := None;
        }
        gesture := Some(Gesture(time, 1, 0.0, false, afterTap, afterTap, false, Point(0.0, 0.0)));
      }
      SetTouch(id, at);
      var g := gesture.value;
      if |touches| >= 2 && g.fingers == 1 {
        g := SecondFinger(g);
      }
      var centre := TouchCentre();
      gesture := Some(g.(last := centre));
    }

    // What the first finger owed or held is settled.
    method SecondFinger(first: Gesture) returns (g: Gesture)
      modifies this`sent
      ensures (g, sent) == Joined(first, old(sent))
    {
      g := first.(fingers := 2, dragArmed := false);
      if g.owesClick {
        g := g.(owesClick := false);
        Send(LEFT_CLICK);
      }
      if g.dragging {
        g := g.(dragging := false);
        Send(Release(Left));
      }
    }

    method HandleMove(id: int, at: Point, frame: Option<Size>)
      requires PadOk(State())
      modifies this
      ensures State() == OnMove(hypot, old(State()), id, at, frame)
    {
      if !Has(touches, id) {
        return;
      }
      SetTouch(id, at);
      var centre := TouchCentre();
      var g := gesture.value;
      var dx, dy := centre.x - g.last.x, centre.y - g.last.y;
      g := g.(last := centre, travelled := g.travelled + hypot(dx, dy));
      if !g.moved {
        if g.travelled < TAP_SLOP_PX {
          gesture := Some(g);
          return;
        }
        g := g.(moved := true);
      }
      gesture := Some(g);
      if frame.None? {
        return;
      }
      SendMovement(g, dx / frame.value.width, dy / frame.value.height);
    }

    // The last lines: a scroll, or a movement that may start a drag.
    method SendMovement(g: Gesture, fx: real, fy: real)
      requires gesture == Some(g)
      modifies this`gesture, this`sent
      ensures
        if g.fingers == 2 then gesture == Some(g) && sent == old(sent) + [Scroll(fx, fy)]
        else if g.dragArmed && !g.dragging then
          && gesture == Some(g.(dragging := true, owesClick := false))
          && sent == old(sent) + [Press(Left), MoveRel(fx, fy)]
        else gesture == Some(g) && sent == old(sent) + [MoveRel(fx, fy)]
    {
      if g.fingers == 2 {
        Send(Scroll(fx, fy));
        return;
      }
      if g.dragArmed && !g.dragging {
        gesture := Some(g.(dragging := true, owesClick := false));
        Send(Press(Left));
      }
      Send(MoveRel(fx, fy));
      assert old(sent) + [Press(Left), MoveRel(fx, fy)] == old(sent) + [Press(Left)] + [MoveRel(fx, fy)];
    }

    method HandleUp(id: int, time: real, cancelled: bool)
      requires PadOk(State())
      modifies this
      ensures State() == OnUp(old(State()), id, time, cancelled)
    {
      if !Has(touches, id) {
        return;
      }
      var i := IndexOf(touches, id);
      touches := touches[..i] + touches[i + 1..];
      if touches != [] {
        var centre := TouchCentre();
        gesture := Some(gesture.value.(last := centre));
        return;
      }
      var ended := gesture.value;
      gesture := None;
      if ended.dragging {
        Send(Release(Left));
        return;
      }
      if ended.owesClick {
        Send(LEFT_CLICK);
      }
      if cancelled {
        return;
      }
      if ended.moved || time - ended.startedAt > TAP_MAX_MS {
        return;
      }
      if ended.fingers == 2 {
        Send(Click(Right));
      } else if ended.owesClick {
        Send(LEFT_CLICK);
      } else {
        heldClick := Some(nextTimer);
        timers := timers + {nextTimer};
        nextTimer := nextTimer + 1;
      }
    }

    // The callback of the held-back click's timer.
    method TimerFires(timer: nat)
      modifies this
      ensures State() == OnFire(old(State()), timer)
    {
      if timer in timers {
        timers := timers - {timer};
        heldClick := None;
        Send(LEFT_CLICK);
      }
    }

    // The page's event listeners and the browser's timers, in any order.
    method HandleAll(events: seq<PadEvent>)
      requires PadOk(State())
      modifies this
      ensures State() == PadRun(hypot, old(State()), events) && PadOk(State())
      ensures Accounted(State()) == old(Accounted(State())) + Taps(hypot, old(State()), events)
    {
      TapsAreConserved(hypot, State(), events);
      var i := 0;
      while i < |events|
        invariant 0 <= i <= |events|
        invariant PadOk(State())
        invariant PadRun(hypot, State(), events[i..]) == PadRun(hypot, old(State()), events)
      {
        PadOkStep(hypot, State(), events[i]);
        assert events[i..][1..] == events[i + 1..];
        match events[i] {
          case Down(id, at, time) => HandleDown(id, at, time);
          case Move(id, at, frame) => HandleMove(id, at, frame);
          case Up(id, time, cancelled) => HandleUp(id, time, cancelled);
          case Fire(timer) => TimerFires(timer);
        }
        i := i + 1;
      }
    }
  }
}

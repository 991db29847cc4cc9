// The page's mouse (client/input.mjs): one button, pressed, dragged and
// released at the pointer's position.
module Mouse {
  import opened Wrappers
  import opened Letterbox

  datatype Message = Down(at: Position) | Move(at: Position) | Up(at: Position)

  // A position is missing while the video has no size.
  datatype MouseEvent =
    | PointerDown(button: int, pos: Option<Position>)
    | PointerMove(pos: Option<Position>)
    | PointerEnd(pos: Option<Position>)

  datatype MouseState = MouseState(down: bool, sent: seq<Message>)

  const FRESH := MouseState(false, [])

  predicate OnFrame(pos: Option<Position>) {
    pos.Some? && 0.0 <= pos.value.x <= 1.0 && 0.0 <= pos.value.y <= 1.0
  }

  predicate Starts(e: MouseEvent) { e.PointerDown? && e.button == 0 && OnFrame(e.pos) }

  function MouseNext(s: MouseState, e: MouseEvent): MouseState {
    match e
    case PointerDown(_, pos) => if Starts(e) then MouseState(true, s.sent + [Down(Sent(pos.value))]) else s
    case PointerMove(pos) => if s.down && pos.Some? then s.(sent := s.sent + [Move(Sent(pos.value))]) else s
    case PointerEnd(pos) =>
      if !s.down then s
      else MouseState(false, if pos.Some? then s.sent + [Up(Sent(pos.value))] else s.sent)
  }

  function MouseRun(s: MouseState, events: seq<MouseEvent>): MouseState
    decreases |events|
  {
    if events == [] then s else MouseRun(MouseNext(s, events[0]), events[1..])
  }

  class PageMouse {
    var down: bool
    var sent: seq<Message>

    function State(): MouseState
      reads this
    {
      MouseState(down, sent)
    }

    constructor ()
      ensures State() == FRESH
    {
      down := false;
      sent := [];
    }

    // `handle`: returns whether a press started.
    method Handle(e: MouseEvent) returns (started: bool)
      modifies this
      ensures State() == MouseNext(old(State()), e)
      ensures started <==> Starts(e)
    {
      if e.PointerDown? {
        if e.button != 0 {
          return false;
        }
        if e.pos.None? || e.pos.value.x < 0.0 || e.pos.value.x > 1.0 || e.pos.value.y < 0.0 || e.pos.value.y > 1.0 {
          return false;
        }
        down := true;
        sent := sent + [Down(Sent(e.pos.value))];
        return true;
      }
      if !down {
        return false;
      }
      if e.PointerMove? {
        if e.pos.Some? {
          sent := sent + [Move(Sent(e.pos.value))];
        }
        return false;
      }
      down := false;
      if e.pos.Some? {
        sent := sent + [Up(Sent(e.pos.value))];
      }
      return false;
    }
  }

  // ------------------------------------------------------------- what the host holds

  // Whether the button is down on the host after these messages.
  predicate HeldBy(sent: seq<Message>) {
    sent != [] && match sent[|sent| - 1]
    case Down(_) => true
    case Move(_) => HeldBy(sent[..|sent| - 1])
    case Up(_) => false
  }

  lemma HeldAppend(sent: seq<Message>, m: Message)
    ensures HeldBy(sent + [m]) <==> m.Down? || (m.Move? && HeldBy(sent))
  {
    assert (sent + [m])[..|sent|] == sent;
  }

  // Whether the last press was let go of while the video had no size.
  predicate ReleaseLost(s: MouseState, lost: bool, events: seq<MouseEvent>)
    decreases |events|
  {
    if events == [] then lost
    else
      var e := events[0];
      var now := if Starts(e) then false else if e.PointerEnd? && s.down then e.pos.None? else lost;
      ReleaseLost(MouseNext(s, e), now, events[1..])
  }

  // The host's button agrees with the page's, unless the page let go of it
  // without a position to send: then it stays down until the next press and
  // release.
  lemma {:induction false} HostButtonFollowsExactlyUnlessLost(s: MouseState, lost: bool, events: seq<MouseEvent>)
    requires HeldBy(s.sent) <==> s.down || lost
    requires !(s.down && lost)
    ensures
      var n, l := MouseRun(s, events), ReleaseLost(s, lost, events);
      && (HeldBy(n.sent) <==> n.down || l) && !(n.down && l)
      && ((HeldBy(n.sent) <==> n.down) <==> !l)
    decreases |events|
  {
    if events == [] {
    } else {
      var e := events[0];
      if e.pos.Some? {
        HeldAppend(s.sent, Down(Sent(e.pos.value)));
        HeldAppend(s.sent, Move(Sent(e.pos.value)));
        HeldAppend(s.sent, Up(Sent(e.pos.value)));
      }
      var now := if Starts(e) then false else if e.PointerEnd? && s.down then e.pos.None? else lost;
      HostButtonFollowsExactlyUnlessLost(MouseNext(s, e), now, events[1..]);
    }
  }

  // A press, then a release while the video has no size.
  lemma ReleaseCanBeLost() returns (events: seq<MouseEvent>)
    ensures var n := MouseRun(FRESH, events); !n.down && HeldBy(n.sent)
  {
    var middle := Position(0.5, 0.5);
    events := [PointerDown(0, Some(middle)), PointerEnd(None)];
    var s1 := MouseNext(FRESH, events[0]);
    var s2 := MouseNext(s1, events[1]);
    assert events[1..] == [events[1]] && events[1..][1..] == [];
    assert MouseRun(FRESH, events) == MouseRun(s1, events[1..]) == MouseRun(s2, []);
    HeldAppend([], Down(Sent(middle)));
    assert s2.sent == [] + [Down(Sent(middle))];
  }

  // Every coordinate sent is a fraction of the frame, even far off it.
  lemma {:induction false} OnlyFractionsAreSent(s: MouseState, events: seq<MouseEvent>)
    requires forall m :: m in s.sent ==> OnFrame(Some(m.at))
    ensures forall m :: m in MouseRun(s, events).sent ==> OnFrame(Some(m.at))
    decreases |events|
  {
    if events == [] {
    } else {
      OnlyFractionsAreSent(MouseNext(s, events[0]), events[1..]);
    }
  }
}

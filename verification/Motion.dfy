// The touch page and the injector together: what a finger's way on the page
// becomes as cursor movement, and which buttons are down meanwhile.
module Motion {
  import opened Wrappers
  import T = Trackpad
  import opened Injector

  // A message of the touch page, as the host reads it.
  function Received(i: T.Input): InputEvent {
    match i
    case Click(b) => Click(b)
    case Press(b) => Press(b)
    case Release(b) => Release(b)
    case MoveRel(dx, dy) => MoveRel(dx, dy)
    case Scroll(dx, dy) => Scroll(dx, dy)
  }

  function Wire(sent: seq<T.Input>): (r: seq<InputEvent>)
    ensures |r| == |sent|
  {
    if sent == [] then [] else Wire(sent[..|sent| - 1]) + [Received(sent[|sent| - 1])]
  }

  // ------------------------------------------------------------- runs

  lemma {:induction false} RunSplits(v: Verdict, at: Cursor, m: Map, s: Inj, a: seq<InputEvent>, b: seq<InputEvent>)
    ensures InjRun(v, at, m, s, a + b) == InjRun(v, at, m, InjRun(v, at, m, s, a), b)
    decreases |a|
  {
    if a == [] {
      assert a + b == b;
    } else {
      assert (a + b)[1..] == a[1..] + b;
      RunSplits(v, at, m, Apply(v, at, m, s, a[0]).state, a[1..], b);
    }
  }

  lemma RunLast(v: Verdict, at: Cursor, m: Map, s: Inj, a: seq<InputEvent>, e: InputEvent)
    ensures InjRun(v, at, m, s, a + [e]) == Apply(v, at, m, InjRun(v, at, m, s, a), e).state
  {
    RunSplits(v, at, m, s, a, [e]);
    var s1 := InjRun(v, at, m, s, a);
    assert [e][1..] == [];
    assert InjRun(v, at, m, s1, [e]) == InjRun(v, at, m, Apply(v, at, m, s1, e).state, []);
  }

  // ------------------------------------------------------------- distances

  lemma {:induction false} ExactAppend(m: Map, a: seq<InputEvent>, e: InputEvent)
    ensures ExactX(m, a + [e]) == ExactX(m, a) + if e.MoveRel? then ToPointsX(m, e.dx) else 0.0
    ensures ExactY(m, a + [e]) == ExactY(m, a) + if e.MoveRel? then ToPointsY(m, e.dy) else 0.0
    decreases |a|
  {
    if a == [] {
      assert a + [e] == [e] && [e][1..] == [];
    } else {
      assert (a + [e])[1..] == a[1..] + [e];
      ExactAppend(m, a[1..], e);
    }
  }

  lemma QuotientSum(x: real, y: real, n: real)
    requires n != 0.0
    ensures (x + y) / n == x / n + y / n
  {
  }

  lemma PointsAdd(m: Map, a: real, b: real)
    ensures ToPointsX(m, a + b) == ToPointsX(m, a) + ToPointsX(m, b)
    ensures ToPointsY(m, a + b) == ToPointsY(m, a) + ToPointsY(m, b)
  {
    QuotientSum(a * m.frameWidth, b * m.frameWidth, m.scale);
    QuotientSum(a * m.frameHeight, b * m.frameHeight, m.scale);
  }

  lemma ZeroPoints(m: Map)
    ensures ToPointsX(m, 0.0) == 0.0 && ToPointsY(m, 0.0) == 0.0
  {
  }

  // The exact distance is that of all the fractions sent.
  lemma {:induction false} ExactIsTotal(m: Map, sent: seq<T.Input>)
    ensures ExactX(m, Wire(sent)) == ToPointsX(m, T.TotalX(sent))
    ensures ExactY(m, Wire(sent)) == ToPointsY(m, T.TotalY(sent))
    decreases |sent|
  {
    if sent == [] {
      ZeroPoints(m);
    } else {
      var front, last := sent[..|sent| - 1], sent[|sent| - 1];
      ExactIsTotal(m, front);
      ExactAppend(m, Wire(front), Received(last));
      if last.MoveRel? {
        PointsAdd(m, T.TotalX(front), last.dx);
        PointsAdd(m, T.TotalY(front), last.dy);
      }
    }
  }

  function Distance(a: real, b: real): real { if a <= b then b - a else a - b }

  // Whatever the gestures, the frames they were measured on and the failures
  // of the OS: the whole points asked for are within one point of the exact
  // distance.
  lemma StepsFollowTheFingers(v: Verdict, at: Cursor, m: Map, sent: seq<T.Input>)
    ensures Distance(StepsX(m, 0.0, Wire(sent)) as real, ToPointsX(m, T.TotalX(sent))) < 1.0
    ensures Distance(StepsY(m, 0.0, Wire(sent)) as real, ToPointsY(m, T.TotalY(sent))) < 1.0
  {
    RemaindersCarryOver(v, at, m, FRESH, Wire(sent));
    ExactIsTotal(m, sent);
  }

  // ------------------------------------------------------------- the cursor

  // Where the cursor is after some calls: where the last successful move put it.
  function CursorAfter(start: (int, int), log: seq<Entry>): (int, int) {
    if log == [] then start
    else
      var last := log[|log| - 1];
      if last.call.MoveMouse? && last.ok then (last.call.x, last.call.y) else CursorAfter(start, log[..|log| - 1])
  }

  lemma CursorAppend(start: (int, int), log: seq<Entry>, e: Entry)
    ensures CursorAfter(start, log + [e])
      == if e.call.MoveMouse? && e.ok then (e.call.x, e.call.y) else CursorAfter(start, log)
  {
    assert (log + [e])[..|log|] == log;
  }

  // What a relative move reads is where the cursor is: nobody else moves it.
  ghost predicate ReadsTrue(v: Verdict, at: Cursor, m: Map, start: (int, int), s: Inj, events: seq<InputEvent>)
    decreases |events|
  {
    events != [] ==>
      && (events[0].MoveRel? ==> at(|s.log|) == CursorAfter(start, s.log))
      && ReadsTrue(v, at, m, start, Apply(v, at, m, s, events[0]).state, events[1..])
  }

  // The way never leaves the display.
  ghost predicate StaysInside(m: Map, c: (int, int), restX: real, restY: real, events: seq<InputEvent>) {
    forall k :: 0 <= k <= |events| ==>
      && 0 <= c.0 + StepsX(m, restX, events[..k]) < m.displayWidth
      && 0 <= c.1 + StepsY(m, restY, events[..k]) < m.displayHeight
  }

  predicate FromTouches(e: InputEvent) { e.Click? || e.Press? || e.Release? || e.MoveRel? || e.Scroll? }

  lemma StepsUnfold(m: Map, restX: real, restY: real, events: seq<InputEvent>)
    requires events != []
    ensures StepsX(m, restX, events)
         == StepsX(m, restX, events[..1]) + StepsX(m, NextRestX(m, restX, events[0]), events[1..])
    ensures StepsY(m, restY, events)
         == StepsY(m, restY, events[..1]) + StepsY(m, NextRestY(m, restY, events[0]), events[1..])
  {
    assert events[..1] == [events[0]] && [events[0]][1..] == [];
    assert StepsX(m, NextRestX(m, restX, events[0]), []) == 0;
    assert StepsY(m, NextRestY(m, restY, events[0]), []) == 0;
  }

  lemma CursorOneButton(v: Verdict, start: (int, int), s: Inj, b: Button, d: Direction)
    ensures CursorAfter(start, Do(v, s, ButtonCall(b, d)).log) == CursorAfter(start, s.log)
  {
    CursorAppend(start, s.log, Entry(ButtonCall(b, d), v(|s.log|)));
  }

  lemma StepsOfOne(m: Map, restX: real, restY: real, e: InputEvent)
    ensures StepsX(m, restX, [e]) == if e.MoveRel? then Trunc(restX + ToPointsX(m, e.dx)) else 0
    ensures StepsY(m, restY, [e]) == if e.MoveRel? then Trunc(restY + ToPointsY(m, e.dy)) else 0
  {
    assert [e][1..] == [];
  }

  // Anything but a movement leaves the cursor where it is.
  lemma CursorStays(v: Verdict, at: Cursor, m: Map, start: (int, int), s: Inj, e: InputEvent)
    requires FromTouches(e) && !e.MoveRel?
    ensures CursorAfter(start, Apply(v, at, m, s, e).state.log) == CursorAfter(start, s.log)
  {
    match e
    case Scroll(dx, dy) => CursorOneScroll(v, m, start, s, dx, dy);
    case Click(b) => CursorOneButton(v, start, s, b, ClickIt);
    case Press(b) => CursorOneButton(v, start, s, b, PressIt);
    case Release(b) => CursorOneButton(v, start, s, b, ReleaseIt);
  }

  lemma CursorOneStep(v: Verdict, at: Cursor, m: Map, start: (int, int), s: Inj, e: InputEvent)
    requires forall i :: v(i)
    requires FromTouches(e) && (e.MoveRel? ==> at(|s.log|) == CursorAfter(start, s.log))
    requires
      var c := CursorAfter(start, s.log);
      && 0 <= c.0 + StepsX(m, s.moveX, [e]) < m.displayWidth
      && 0 <= c.1 + StepsY(m, s.moveY, [e]) < m.displayHeight
    ensures
      var c := CursorAfter(start, s.log);
      CursorAfter(start, Apply(v, at, m, s, e).state.log)
        == (c.0 + StepsX(m, s.moveX, [e]), c.1 + StepsY(m, s.moveY, [e]))
  {
    StepsOfOne(m, s.moveX, s.moveY, e);
    if e.MoveRel? {
      CursorOneMove(v, at, m, start, s, e.dx, e.dy);
    } else {
      CursorStays(v, at, m, start, s, e);
    }
  }

  lemma CursorOneMove(v: Verdict, at: Cursor, m: Map, start: (int, int), s: Inj, dx: real, dy: real)
    requires v(|s.log|) && v(|s.log| + 1) && at(|s.log|) == CursorAfter(start, s.log)
    requires
      var c := CursorAfter(start, s.log);
      && 0 <= c.0 + Trunc(s.moveX + ToPointsX(m, dx)) < m.displayWidth
      && 0 <= c.1 + Trunc(s.moveY + ToPointsY(m, dy)) < m.displayHeight
    ensures
      var c := CursorAfter(start, s.log);
      CursorAfter(start, OnMoveRel(v, at, m, s, dx, dy).state.log)
        == (c.0 + Trunc(s.moveX + ToPointsX(m, dx)), c.1 + Trunc(s.moveY + ToPointsY(m, dy)))
  {
    var n := OnMoveRel(v, at, m, s, dx, dy).state;
    var c := CursorAfter(start, s.log);
    if n.log != s.log {
      var located := Entry(Location, true);
      var x, y := c.0 + Trunc(s.moveX + ToPointsX(m, dx)), c.1 + Trunc(s.moveY + ToPointsY(m, dy));
      var moved := Entry(MoveMouse(x, y), true);
      assert n.log == s.log + [located] + [moved];
      CursorAppend(start, s.log + [located], moved);
    }
  }

  // A scroll makes at most two calls, both of them scrolls.
  lemma ScrollCalls(v: Verdict, m: Map, s: Inj, dx: real, dy: real) returns (more: seq<Entry>)
    ensures OnScroll(v, m, s, dx, dy).state.log == s.log + more
    ensures forall e :: e in more ==> e.call.SmoothScroll?
  {
    more := OnScroll(v, m, s, dx, dy).state.log[|s.log|..];
  }

  lemma {:induction false} CursorKept(start: (int, int), log: seq<Entry>, more: seq<Entry>)
    requires forall e :: e in more ==> !e.call.MoveMouse?
    ensures CursorAfter(start, log + more) == CursorAfter(start, log)
    decreases |more|
  {
    if more == [] {
      assert log + more == log;
    } else {
      var front, last := more[..|more| - 1], more[|more| - 1];
      CursorKept(start, log, front);
      CursorAppend(start, log + front, last);
      assert log + more == log + front + [last];
    }
  }

  lemma CursorOneScroll(v: Verdict, m: Map, start: (int, int), s: Inj, dx: real, dy: real)
    ensures CursorAfter(start, OnScroll(v, m, s, dx, dy).state.log) == CursorAfter(start, s.log)
  {
    var more := ScrollCalls(v, m, s, dx, dy);
    CursorKept(start, s.log, more);
  }

  lemma InsideNext(m: Map, c: (int, int), restX: real, restY: real, events: seq<InputEvent>)
    requires events != [] && StaysInside(m, c, restX, restY, events)
    ensures
      var d := (c.0 + StepsX(m, restX, [events[0]]), c.1 + StepsY(m, restY, [events[0]]));
      StaysInside(m, d, NextRestX(m, restX, events[0]), NextRestY(m, restY, events[0]), events[1..])
  {
    var rest := events[1..];
    var nextX, nextY := NextRestX(m, restX, events[0]), NextRestY(m, restY, events[0]);
    var d := (c.0 + StepsX(m, restX, [events[0]]), c.1 + StepsY(m, restY, [events[0]]));
    forall k | 0 <= k <= |rest|
      ensures 0 <= d.0 + StepsX(m, nextX, rest[..k]) < m.displayWidth
      ensures 0 <= d.1 + StepsY(m, nextY, rest[..k]) < m.displayHeight
    {
      var longer := events[..k + 1];
      StepsUnfold(m, restX, restY, longer);
      assert longer[..1] == [events[0]] && longer[1..] == rest[..k];
    }
  }

  // One event, with the new state named.
  lemma FirstStep(v: Verdict, at: Cursor, m: Map, start: (int, int), s: Inj, events: seq<InputEvent>) returns (n: Inj)
    requires events != [] && FromTouches(events[0]) && forall i :: v(i)
    requires ReadsTrue(v, at, m, start, s, events)
    requires StaysInside(m, CursorAfter(start, s.log), s.moveX, s.moveY, events)
    ensures InjRun(v, at, m, s, events) == InjRun(v, at, m, n, events[1..])
    ensures ReadsTrue(v, at, m, start, n, events[1..])
    ensures StaysInside(m, CursorAfter(start, n.log), n.moveX, n.moveY, events[1..])
    ensures CursorAfter(start, n.log).0 + StepsX(m, n.moveX, events[1..])
         == CursorAfter(start, s.log).0 + StepsX(m, s.moveX, events)
    ensures CursorAfter(start, n.log).1 + StepsY(m, n.moveY, events[1..])
         == CursorAfter(start, s.log).1 + StepsY(m, s.moveY, events)
  {
    var c, e := CursorAfter(start, s.log), events[0];
    assert events[..1] == [e];
    n := Apply(v, at, m, s, e).state;
    CursorOneStep(v, at, m, start, s, e);
    RestStep(v, at, m, s, e);
    InsideNext(m, c, s.moveX, s.moveY, events);
    StepsUnfold(m, s.moveX, s.moveY, events);
  }

  // With nobody else moving it and no edge in the way, the cursor goes exactly
  // the whole points asked for.
  lemma {:induction false} CursorTakesTheSteps(v: Verdict, at: Cursor, m: Map, start: (int, int), s: Inj,
                                               events: seq<InputEvent>)
    requires forall i :: v(i)
    requires forall e :: e in events ==> FromTouches(e)
    requires ReadsTrue(v, at, m, start, s, events)
    requires StaysInside(m, CursorAfter(start, s.log), s.moveX, s.moveY, events)
    ensures
      var c := CursorAfter(start, s.log);
      CursorAfter(start, InjRun(v, at, m, s, events).log)
        == (c.0 + StepsX(m, s.moveX, events), c.1 + StepsY(m, s.moveY, events))
    decreases |events|
  {
    if events == [] {
    } else {
      var n := FirstStep(v, at, m, start, s, events);
      var rest := events[1..];
      CursorTakesTheSteps(v, at, m, start, n, rest);
    }
  }

  lemma {:induction false} WireIsFromTouches(sent: seq<T.Input>)
    ensures forall e :: e in Wire(sent) ==> FromTouches(e)
    decreases |sent|
  {
    if sent == [] {
    } else {
      WireIsFromTouches(sent[..|sent| - 1]);
    }
  }

  // ------------------------------------------------------------- a slide, end to end

  // A page that was just opened, with one finger down and sliding.
  function Slid(hypot: T.Norm, id: int, from: T.Point, time: real, path: seq<T.Point>, frame: T.Size): T.Pad {
    T.Slide(hypot, T.OnDown(T.FRESH, id, from, time), id, path, frame)
  }

  // Where the finger was just before the slop was crossed.
  function SlopPoint(hypot: T.Norm, id: int, from: T.Point, time: real, path: seq<T.Point>, frame: T.Size): T.Point {
    T.Position(from, path, T.BeforeCrossing(hypot, T.OnDown(T.FRESH, id, from, time), id, path, frame))
  }

  lemma LandedFinger(id: int, from: T.Point, time: real) returns (p: T.Pad)
    ensures p == T.OnDown(T.FRESH, id, from, time)
    ensures T.PadOk(p) && T.OneFinger(p, id, from) && p.sent == []
  {
    p := T.OnDown(T.FRESH, id, from, time);
    T.FreshPadIsOk();
    T.PadOkStep((x, y) => 0.0, T.FRESH, T.Down(id, from, time));
    assert T.Set([], id, from) == [T.Touch(id, from)];
  }

  // From a page that has sent nothing yet, the fractions sent add up to the
  // finger's way in shares of the frame.
  lemma TotalOfSlide(hypot: T.Norm, p: T.Pad, id: int, from: T.Point, path: seq<T.Point>, frame: T.Size)
    requires T.PadOk(p) && T.OneFinger(p, id, from) && p.sent == []
    ensures
      var sent := T.Slide(hypot, p, id, path, frame).sent;
      var a := T.Position(from, path, T.BeforeCrossing(hypot, p, id, path, frame));
      var b := T.Position(from, path, |path|);
      T.TotalX(sent) == (b.x - a.x) / frame.width && T.TotalY(sent) == (b.y - a.y) / frame.height
  {
    T.SlideTelescopes(hypot, p, id, from, path, frame);
    assert T.TotalX([]) == 0.0 && T.TotalY([]) == 0.0;
  }

  lemma SlideTotal(hypot: T.Norm, id: int, from: T.Point, time: real, path: seq<T.Point>, frame: T.Size)
    ensures
      var sent := Slid(hypot, id, from, time, path, frame).sent;
      var a, b := SlopPoint(hypot, id, from, time, path, frame), T.Position(from, path, |path|);
      T.TotalX(sent) == (b.x - a.x) / frame.width && T.TotalY(sent) == (b.y - a.y) / frame.height
  {
    var p := LandedFinger(id, from, time);
    TotalOfSlide(hypot, p, id, from, path, frame);
  }

  // Whatever was sent: the cursor ends less than one point per axis from where
  // the fractions, scaled, would put it.
  lemma CursorFollows(v: Verdict, at: Cursor, m: Map, start: (int, int), sent: seq<T.Input>)
    requires forall i :: v(i)
    requires ReadsTrue(v, at, m, start, FRESH, Wire(sent)) && StaysInside(m, start, 0.0, 0.0, Wire(sent))
    ensures
      var end := CursorAfter(start, InjRun(v, at, m, FRESH, Wire(sent)).log);
      && Distance((end.0 - start.0) as real, ToPointsX(m, T.TotalX(sent))) < 1.0
      && Distance((end.1 - start.1) as real, ToPointsY(m, T.TotalY(sent))) < 1.0
  {
    StepsFollowTheFingers(v, at, m, sent);
    WireIsFromTouches(sent);
    CursorTakesTheSteps(v, at, m, start, FRESH, Wire(sent));
  }

  // A finger slides on a freshly opened page: the cursor ends less than one
  // point per axis from where the finger's way, scaled, would put it.
  lemma SlideMovesTheCursor(hypot: T.Norm, id: int, from: T.Point, time: real, path: seq<T.Point>, frame: T.Size,
                            v: Verdict, at: Cursor, m: Map, start: (int, int))
    requires forall i :: v(i)
    requires ReadsTrue(v, at, m, start, FRESH, Wire(Slid(hypot, id, from, time, path, frame).sent))
    requires StaysInside(m, start, 0.0, 0.0, Wire(Slid(hypot, id, from, time, path, frame).sent))
    ensures
      var end := CursorAfter(start, InjRun(v, at, m, FRESH, Wire(Slid(hypot, id, from, time, path, frame).sent)).log);
      var a, b := SlopPoint(hypot, id, from, time, path, frame), T.Position(from, path, |path|);
      && Distance((end.0 - start.0) as real, ToPointsX(m, (b.x - a.x) / frame.width)) < 1.0
      && Distance((end.1 - start.1) as real, ToPointsY(m, (b.y - a.y) / frame.height)) < 1.0
  {
    SlideTotal(hypot, id, from, time, path, frame);
    CursorFollows(v, at, m, start, Slid(hypot, id, from, time, path, frame).sent);
  }

  // ------------------------------------------------------------- buttons, end to end

  lemma PressPutsDown(v: Verdict, s: Inj, b: Button)
    requires v(|s.log|)
    ensures DownOn(PressButton(v, s, b).state.log) == DownOn(s.log) + {b}
  {
    DoEffect(v, s, ButtonCall(b, PressIt));
  }

  lemma ReleaseLetsUp(v: Verdict, s: Inj, b: Button)
    requires v(|s.log|)
    ensures DownOn(ReleaseButton(v, s, b).state.log) == DownOn(s.log) - {b}
  {
    DoEffect(v, s, ButtonCall(b, ReleaseIt));
  }

  lemma ClickLetsUp(v: Verdict, s: Inj, b: Button)
    requires v(|s.log|)
    ensures DownOn(Do(v, s, ButtonCall(b, ClickIt)).log) == DownOn(s.log) - {b}
  {
    DoEffect(v, s, ButtonCall(b, ClickIt));
  }

  lemma MotionEvent(v: Verdict, at: Cursor, m: Map, s: Inj, i: T.Input)
    requires i.MoveRel? || i.Scroll?
    ensures DownOn(Apply(v, at, m, s, Received(i)).state.log) == DownOn(s.log)
  {
    match i
    case MoveRel(dx, dy) => MoveRelLeavesButtons(v, at, m, s, dx, dy);
    case Scroll(dx, dy) => ScrollLeavesButtons(v, m, s, dx, dy);
  }

  lemma ButtonEvent(v: Verdict, at: Cursor, m: Map, s: Inj, i: T.Input)
    requires v(|s.log|)
    requires (i.Press? || i.Release?) ==> i.button == T.Left
    requires DownOn(s.log) <= {T.Left} && (i.Click? ==> DownOn(s.log) == {})
    ensures
      var down := DownOn(Apply(v, at, m, s, Received(i)).state.log);
      down == if i == T.Press(T.Left) then {T.Left} else if i == T.Release(T.Left) then {} else DownOn(s.log)
  {
    match i
    case Click(b) => ClickLetsUp(v, s, b);
    case Press(b) => PressPutsDown(v, s, b);
    case Release(b) => ReleaseLetsUp(v, s, b);
    case _ => MotionEvent(v, at, m, s, i);
  }

  ghost predicate OnlyLeftIsHeld(sent: seq<T.Input>) {
    forall i :: i in sent && (i.Press? || i.Release?) ==> i.button == T.Left
  }

  // When every call succeeds, the OS button is down exactly while the messages
  // so far hold it.
  lemma {:induction false} ButtonFollows(v: Verdict, at: Cursor, m: Map, sent: seq<T.Input>)
    requires forall k :: v(k)
    requires T.WellPaired(sent) && OnlyLeftIsHeld(sent)
    ensures 0 <= T.Held(sent) <= 1
    ensures DownOn(InjRun(v, at, m, FRESH, Wire(sent)).log) == if T.Held(sent) == 1 then {T.Left} else {}
    decreases |sent|
  {
    if sent == [] {
    } else {
      var front, last := sent[..|sent| - 1], sent[|sent| - 1];
      assert forall i :: i in front ==> i in sent;
      ButtonFollows(v, at, m, front);
      RunLast(v, at, m, FRESH, Wire(front), Received(last));
      ButtonEvent(v, at, m, InjRun(v, at, m, FRESH, Wire(front)), last);
    }
  }

  lemma DownHoldsOnlyLeft(p: T.Pad, id: int, at: T.Point, time: real)
    requires OnlyLeftIsHeld(p.sent)
    ensures OnlyLeftIsHeld(T.OnDown(p, id, at, time).sent)
  {
  }

  lemma MoveHoldsOnlyLeft(hypot: T.Norm, p: T.Pad, id: int, at: T.Point, frame: Option<T.Size>)
    requires OnlyLeftIsHeld(p.sent)
    ensures OnlyLeftIsHeld(T.OnMove(hypot, p, id, at, frame).sent)
  {
  }

  lemma UpHoldsOnlyLeft(p: T.Pad, id: int, time: real, cancelled: bool)
    requires OnlyLeftIsHeld(p.sent)
    ensures OnlyLeftIsHeld(T.OnUp(p, id, time, cancelled).sent)
  {
  }

  lemma StepHoldsOnlyLeft(hypot: T.Norm, p: T.Pad, e: T.PadEvent)
    requires OnlyLeftIsHeld(p.sent)
    ensures OnlyLeftIsHeld(T.PadNext(hypot, p, e).sent)
  {
    match e
    case Down(id, at, time) => DownHoldsOnlyLeft(p, id, at, time);
    case Move(id, at, frame) => MoveHoldsOnlyLeft(hypot, p, id, at, frame);
    case Up(id, time, cancelled) => UpHoldsOnlyLeft(p, id, time, cancelled);
    case Fire(timer) =>
  }

  lemma {:induction false} PadHoldsOnlyLeft(hypot: T.Norm, p: T.Pad, events: seq<T.PadEvent>)
    requires OnlyLeftIsHeld(p.sent)
    ensures OnlyLeftIsHeld(T.PadRun(hypot, p, events).sent)
    decreases |events|
  {
    if events == [] {
    } else {
      StepHoldsOnlyLeft(hypot, p, events[0]);
      PadHoldsOnlyLeft(hypot, T.PadNext(hypot, p, events[0]), events[1..]);
    }
  }

  // Whatever the fingers do: the Mac's button is down exactly while a gesture
  // on the page is dragging.
  lemma ButtonIsDownExactlyWhileDragging(hypot: T.Norm, events: seq<T.PadEvent>, v: Verdict, at: Cursor, m: Map)
    requires forall k :: v(k)
    ensures
      var p := T.PadRun(hypot, T.FRESH, events);
      DownOn(InjRun(v, at, m, FRESH, Wire(p.sent)).log) == if T.Dragging(p) then {T.Left} else {}
  {
    T.FreshPadIsOk();
    T.ButtonIsHeldOnlyWhileDragging(hypot, T.FRESH, events);
    PadHoldsOnlyLeft(hypot, T.FRESH, events);
    ButtonFollows(v, at, m, T.PadRun(hypot, T.FRESH, events).sent);
  }

  lemma {:induction false} NoResets(v: Verdict, at: Cursor, m: Map, s: Inj, events: seq<InputEvent>)
    requires forall e :: e in events ==> FromTouches(e)
    ensures ResetsSucceed(v, at, m, s, events)
    decreases |events|
  {
    if events == [] {
    } else {
      assert FromTouches(events[0]);
      NoResets(v, at, m, Apply(v, at, m, s, events[0]).state, events[1..]);
    }
  }

  // And whatever fails on the way: a Reset whose releases succeed leaves no
  // button down, wherever in a gesture the channel closed.
  lemma ResetReleasesEverything(hypot: T.Norm, events: seq<T.PadEvent>, v: Verdict, at: Cursor, m: Map)
    ensures
      var s := InjRun(v, at, m, FRESH, Wire(T.PadRun(hypot, T.FRESH, events).sent));
      Apply(v, at, m, s, Reset).ok ==> DownOn(Apply(v, at, m, s, Reset).state.log) == {}
  {
    var sent := T.PadRun(hypot, T.FRESH, events).sent;
    WireIsFromTouches(sent);
    NoResets(v, at, m, FRESH, Wire(sent));
    DownIsAlwaysHeld(v, at, m, FRESH, Wire(sent));
    ResetLeavesNoneDownExactlyWhen(v, at, m, InjRun(v, at, m, FRESH, Wire(sent)));
  }
}

// The injector as the code it is, each method taking the step of Injector it
// stands for.
module InjectorCode {
  import opened Wrappers
  import T = Trackpad
  import opened Injector

  // The OS handle: every call is logged with its result.
  class Enigo {
    const verdict: Verdict
    const cursor: Cursor
    var log: seq<Entry>

    constructor (verdict: Verdict, cursor: Cursor)
      ensures log == [] && this.verdict == verdict && this.cursor == cursor
    {
      this.verdict := verdict;
      this.cursor := cursor;
      log := [];
    }

    method Invoke(call: Call) returns (ok: bool)
      modifies this
      ensures ok == verdict(|old(log)|) && log == old(log) + [Entry(call, ok)]
    {
      ok := verdict(|log|);
      log := log + [Entry(call, ok)];
    }
  }

  // `take_whole`: the whole points, and what is left of the remainder.
  method TakeWhole(rest: real, delta: real) returns (whole: int, left: real)
    ensures whole == Trunc(rest + delta) && left == rest + delta - whole as real
    ensures -1.0 < left < 1.0
  {
    var sum := rest + delta;
    whole := Trunc(sum);
    left := sum - whole as real;
  }

  // Index of the first failing call, if any.
  function FirstError(log: seq<Entry>, from: nat): (r: Option<nat>)
    requires from <= |log|
    ensures r.None? <==> forall i :: from <= i < |log| ==> log[i].ok
    ensures r.Some? ==> from <= r.value < |log| && !log[r.value].ok && forall i :: from <= i < r.value ==> log[i].ok
    decreases |log| - from
  {
    if from == |log| then None else if !log[from].ok then Some(from) else FirstError(log, from + 1)
  }

  lemma {:induction false} FirstErrorAppend(log: seq<Entry>, from: nat, e: Entry)
    requires from <= |log|
    ensures FirstError(log + [e], from)
      == if FirstError(log, from).Some? then FirstError(log, from) else if e.ok then None else Some(|log|)
    decreases |log| - from
  {
    if from < |log| {
      FirstErrorAppend(log, from + 1, e);
    } else if e.ok {
      assert FirstError(log + [e], from) == FirstError(log + [e], from + 1);
    }
  }

  lemma NoErrorMeansAllOk(log: seq<Entry>, calls: seq<Entry>)
    ensures FirstError(log + calls, |log|).None? <==> AllOk(calls)
  {
    var longer := log + calls;
    assert forall i :: 0 <= i < |calls| ==> longer[|log| + i] == calls[i];
    assert forall i :: |log| <= i < |longer| ==> longer[i] == calls[i - |log|];
  }

  lemma Regroup(a: seq<Entry>, b: seq<Entry>, c: seq<Entry>, d: seq<Entry>)
    ensures a + b + c + d == a + (b + c + d)
  {
  }

  lemma Assoc(a: seq<Entry>, b: seq<Entry>, c: seq<Entry>)
    ensures a + (b + c) == a + b + c
  {
  }

  // The press that failed, if one did.
  function FailedPress(v: Verdict, n: nat, mods: seq<Modifier>): seq<Entry> {
    var k := PressedCount(v, n, mods);
    if k == |mods| then [] else [KeyEntry(v, n + k, Mod(mods[k]), PressIt)]
  }

  lemma PressNext(v: Verdict, before: seq<Entry>, mods: seq<Modifier>, i: nat)
    requires i < |mods|
    ensures
      var n := |before|;
      before + Presses(v, n, mods, i + 1)
        == before + Presses(v, n, mods, i) + [KeyEntry(v, n + i, Mod(mods[i]), PressIt)]
  {
    Assoc(before, Presses(v, |before|, mods, i), [KeyEntry(v, |before| + i, Mod(mods[i]), PressIt)]);
  }

  // The calls of the loop that ends after pressing i modifiers.
  lemma PressesEnd(v: Verdict, before: seq<Entry>, mods: seq<Modifier>, i: nat)
    requires i == PressedCount(v, |before|, mods)
    ensures
      before + Presses(v, |before|, mods, if i < |mods| then i + 1 else i)
        == before + Presses(v, |before|, mods, i) + FailedPress(v, |before|, mods)
  {
    if i < |mods| {
      PressNext(v, before, mods, i);
    } else {
      NothingMore(before + Presses(v, |before|, mods, i));
    }
  }

  lemma NothingMore(log: seq<Entry>)
    ensures log + [] == log
  {
  }

  lemma ReleaseNext(v: Verdict, log: seq<Entry>, mods: seq<Modifier>, i: nat)
    requires i < |mods|
    ensures
      log + Releases(v, |log|, mods, i + 1)
        == log + [KeyEntry(v, |log|, Mod(mods[i]), ReleaseIt)] + Releases(v, |log| + 1, mods, i)
  {
    Assoc(log, [KeyEntry(v, |log|, Mod(mods[i]), ReleaseIt)], Releases(v, |log| + 1, mods, i));
  }

  lemma SameReleases(v: Verdict, n: nat, mods: seq<Modifier>, k: nat)
    requires k <= |mods|
    ensures Releases(v, n, mods[..k], k) == Releases(v, n, mods, k)
  {
    PrefixReleases(v, n, mods, k, k);
  }

  lemma {:induction false} PrefixReleases(v: Verdict, n: nat, mods: seq<Modifier>, k: nat, i: nat)
    requires i <= k <= |mods|
    ensures Releases(v, n, mods[..k], i) == Releases(v, n, mods, i)
    decreases i
  {
    if i == 0 {
    } else {
      PrefixReleases(v, n + 1, mods, k, i - 1);
    }
  }

  class InjectorThread {
    const enigo: Enigo
    const frame: Map
    var held: seq<Button>
    var moveX: real
    var moveY: real
    var scrollX: real
    var scrollY: real

    ghost function State(): Inj
      reads this, enigo
    {
      Inj(held, moveX, moveY, scrollX, scrollY, enigo.log)
    }

    constructor (enigo: Enigo, frame: Map)
      requires enigo.log == []
      ensures State() == Injector.FRESH && this.enigo == enigo && this.frame == frame
    {
      this.enigo := enigo;
      this.frame := frame;
      held := [];
      moveX, moveY, scrollX, scrollY := 0.0, 0.0, 0.0, 0.0;
    }

    method PressHeld(button: Button) returns (ok: bool)
      modifies this, enigo
      ensures Outcome(State(), ok) == PressButton(enigo.verdict, old(State()), button)
    {
      ok := enigo.Invoke(ButtonCall(button, PressIt));
      if ok && button !in held {
        held := held + [button];
      }
    }

    method ReleaseOne(button: Button) returns (ok: bool)
      modifies this, enigo
      ensures Outcome(State(), ok) == ReleaseButton(enigo.verdict, old(State()), button)
    {
      ok := enigo.Invoke(ButtonCall(button, ReleaseIt));
      if ok {
        held := Retain(held, button);
      }
    }

    method MoveBy(dx: real, dy: real) returns (ok: bool)
      modifies this, enigo
      ensures Outcome(State(), ok) == OnMoveRel(enigo.verdict, enigo.cursor, frame, old(State()), dx, dy)
    {
      var stepX, stepY;
      stepX, moveX := TakeWhole(moveX, ToPointsX(frame, dx));
      stepY, moveY := TakeWhole(moveY, ToPointsY(frame, dy));
      ok := StepCursor(stepX, stepY);
    }

    // The new position is sent as absolute, within the display.
    method StepCursor(stepX: int, stepY: int) returns (ok: bool)
      modifies enigo
      ensures Outcome(State(), ok) == Stepped(enigo.verdict, enigo.cursor, frame, old(State()), stepX, stepY)
    {
      if stepX == 0 && stepY == 0 {
        return true;
      }
      ok := enigo.Invoke(Location);
      if !ok {
        return;
      }
      var (cx, cy) := enigo.cursor(|enigo.log| - 1);
      var x := ClampInt(cx + stepX, 0, frame.displayWidth - 1);
      var y := ClampInt(cy + stepY, 0, frame.displayHeight - 1);
      ok := enigo.Invoke(MoveMouse(x, y));
    }

    method ScrollBy(dx: real, dy: real) returns (ok: bool)
      modifies this, enigo
      ensures Outcome(State(), ok) == OnScroll(enigo.verdict, frame, old(State()), dx, dy)
    {
      var stepX, stepY;
      stepX, scrollX := TakeWhole(scrollX, -ToPointsX(frame, dx));
      stepY, scrollY := TakeWhole(scrollY, -ToPointsY(frame, dy));
      ok := ScrollPoints(stepX, stepY);
    }

    method ScrollPoints(stepX: int, stepY: int) returns (ok: bool)
      modifies enigo
      ensures Outcome(State(), ok) == Scrolled(enigo.verdict, old(State()), stepX, stepY)
    {
      if stepY != 0 {
        ok := enigo.Invoke(SmoothScroll(stepY, Vertical));
        if !ok {
          return;
        }
      }
      if stepX != 0 {
        ok := enigo.Invoke(SmoothScroll(stepX, Horizontal));
        return;
      }
      return true;
    }

    method ResetHeld() returns (ok: bool)
      modifies this, enigo
      ensures Outcome(State(), ok) == ReleaseHeld(enigo.verdict, old(State()).(held := []), old(held))
    {
      var taken := held;
      held := [];
      var i := 0;
      while i < |taken|
        invariant 0 <= i <= |taken| && held == []
        invariant moveX == old(moveX) && moveY == old(moveY) && scrollX == old(scrollX) && scrollY == old(scrollY)
        invariant ReleaseHeld(enigo.verdict, State(), taken[i..])
               == ReleaseHeld(enigo.verdict, old(State()).(held := []), taken)
      {
        assert taken[i..][1..] == taken[i + 1..];
        ok := enigo.Invoke(ButtonCall(taken[i], ReleaseIt));
        if !ok {
          return;
        }
        i := i + 1;
      }
      return true;
    }

    // The first loop of `key_combo`: presses until one fails.
    method PressAll(mods: seq<Modifier>) returns (pressed: seq<Modifier>, error: Option<nat>)
      modifies enigo
      ensures
        var v, n, k := enigo.verdict, |old(enigo.log)|, PressedCount(enigo.verdict, |old(enigo.log)|, mods);
        && pressed == mods[..k] && (error.None? <==> k == |mods|)
        && enigo.log == old(enigo.log) + Presses(v, n, mods, k) + FailedPress(v, n, mods)
      ensures error == FirstError(enigo.log, |old(enigo.log)|)
    {
      ghost var v, before := enigo.verdict, enigo.log;
      ghost var n := |before|;
      pressed, error := [], None;
      for i := 0 to |mods|
        invariant i <= PressedCount(v, n, mods) && pressed == mods[..i] && error.None?
        invariant enigo.log == before + Presses(v, n, mods, i)
        invariant FirstError(enigo.log, n).None?
      {
        error := PressOne(mods, i, before);
        if error.Some? {
          PressesEnd(v, before, mods, i);
          return;
        }
        pressed := pressed + [mods[i]];
      }
      PressesEnd(v, before, mods, |mods|);
    }

    // One pass of it.
    method PressOne(mods: seq<Modifier>, i: nat, ghost before: seq<Entry>) returns (error: Option<nat>)
      requires i < |mods| && i <= PressedCount(enigo.verdict, |before|, mods)
      requires enigo.log == before + Presses(enigo.verdict, |before|, mods, i)
      requires FirstError(enigo.log, |before|).None?
      modifies enigo
      ensures enigo.log == before + Presses(enigo.verdict, |before|, mods, i + 1)
      ensures error == FirstError(enigo.log, |before|)
      ensures error.None? <==> i < PressedCount(enigo.verdict, |before|, mods)
    {
      ghost var v, n := enigo.verdict, |before|;
      FirstErrorAppend(enigo.log, n, KeyEntry(v, n + i, Mod(mods[i]), PressIt));
      PressNext(v, before, mods, i);
      var ok := enigo.Invoke(KeyCall(Mod(mods[i]), PressIt));
      if ok {
        error := None;
      } else {
        error := Some(|enigo.log| - 1);
      }
    }

    // Its last loop: every pressed modifier is released, last to first,
    // keeping the first error of the whole combination.
    method ReleaseAll(mods: seq<Modifier>, ghost from: nat, earlier: Option<nat>) returns (error: Option<nat>)
      requires from <= |enigo.log| && earlier == FirstError(enigo.log, from)
      modifies enigo
      ensures enigo.log == old(enigo.log) + Releases(enigo.verdict, |old(enigo.log)|, mods, |mods|)
      ensures error == FirstError(enigo.log, from)
    {
      ghost var v, before := enigo.verdict, enigo.log;
      error := earlier;
      for i := |mods| downto 0
        invariant enigo.log + Releases(v, |enigo.log|, mods, i) == before + Releases(v, |before|, mods, |mods|)
        invariant |enigo.log| >= from && error == FirstError(enigo.log, from)
      {
        FirstErrorAppend(enigo.log, from, KeyEntry(v, |enigo.log|, Mod(mods[i]), ReleaseIt));
        ReleaseNext(v, enigo.log, mods, i);
        var ok := enigo.Invoke(KeyCall(Mod(mods[i]), ReleaseIt));
        if error.None? && !ok {
          error := Some(|enigo.log| - 1);
        }
      }
    }

    // The presses, and the click when all of them succeeded.
    method PressAndClick(key: Key, mods: seq<Modifier>) returns (pressed: seq<Modifier>, error: Option<nat>)
      modifies enigo
      ensures
        var v, n := enigo.verdict, |old(enigo.log)|;
        && pressed == mods[..PressedCount(v, n, mods)]
        && enigo.log == old(enigo.log) + Presses(v, n, mods, |pressed|) + [Middle(v, n, key, mods)]
      ensures error == FirstError(enigo.log, |old(enigo.log)|)
    {
      ghost var before := enigo.log;
      pressed, error := PressAll(mods);
      if error.None? {
        assert enigo.log == before + Presses(enigo.verdict, |before|, mods, |pressed|);
        FirstErrorAppend(enigo.log, |before|, KeyEntry(enigo.verdict, |enigo.log|, key, ClickIt));
        var ok := enigo.Invoke(KeyCall(key, ClickIt));
        if !ok {
          error := Some(|enigo.log| - 1);
        }
      }
    }

    // Presses, clicks, and releases in reverse; the first error is returned.
    method Combo(key: Key, mods: seq<Modifier>) returns (error: Option<nat>)
      modifies enigo
      ensures enigo.log == old(enigo.log) + ComboCalls(enigo.verdict, |old(enigo.log)|, key, mods)
      ensures error == FirstError(enigo.log, |old(enigo.log)|)
    {
      ghost var v, n, before := enigo.verdict, |enigo.log|, enigo.log;
      var pressed;
      pressed, error := PressAndClick(key, mods);
      ghost var first, middle := Presses(v, n, mods, |pressed|), [Middle(v, n, key, mods)];
      assert |enigo.log| == n + |pressed| + 1;
      error := ReleaseAll(pressed, n, error);
      SameReleases(v, n + |pressed| + 1, mods, |pressed|);
      Regroup(before, first, middle, Releases(v, n + |pressed| + 1, mods, |pressed|));
    }

    method PointerDown(x: real, y: real) returns (ok: bool)
      modifies this, enigo
      ensures Outcome(State(), ok) == Apply(enigo.verdict, enigo.cursor, frame, old(State()), Down(x, y))
    {
      ok := enigo.Invoke(MoveMouse(ToScreenX(frame, x), ToScreenY(frame, y)));
      if ok {
        ok := PressHeld(T.Left);
      }
    }

    method PointerUp(x: real, y: real) returns (ok: bool)
      modifies this, enigo
      ensures Outcome(State(), ok) == Apply(enigo.verdict, enigo.cursor, frame, old(State()), Up(x, y))
    {
      ok := enigo.Invoke(MoveMouse(ToScreenX(frame, x), ToScreenY(frame, y)));
      if ok {
        ok := ReleaseOne(T.Left);
      }
    }

    method PressKeys(key: Key, mods: seq<Modifier>) returns (ok: bool)
      modifies enigo
      ensures Outcome(State(), ok) == Apply(enigo.verdict, enigo.cursor, frame, old(State()), KeyCombo(key, mods))
    {
      ghost var before := enigo.log;
      var error := Combo(key, mods);
      ghost var calls := ComboCalls(enigo.verdict, |before|, key, mods);
      NoErrorMeansAllOk(before, calls);
      ok := error.None?;
    }

    method ApplyEvent(e: InputEvent) returns (ok: bool)
      modifies this, enigo
      ensures Outcome(State(), ok) == Apply(enigo.verdict, enigo.cursor, frame, old(State()), e)
    {
      match e
      case Down(x, y) => ok := PointerDown(x, y);
      case Move(x, y) => ok := enigo.Invoke(MoveMouse(ToScreenX(frame, x), ToScreenY(frame, y)));
      case Up(x, y) => ok := PointerUp(x, y);
      case MoveRel(dx, dy) => ok := MoveBy(dx, dy);
      case Click(b) => ok := enigo.Invoke(ButtonCall(b, ClickIt));
      case Press(b) => ok := PressHeld(b);
      case Release(b) => ok := ReleaseOne(b);
      case Scroll(dx, dy) => ok := ScrollBy(dx, dy);
      case TypeText(t) => ok := enigo.Invoke(Text(t));
      case KeyCombo(key, mods) => ok := PressKeys(key, mods);
      case Reset => ok := ResetHeld();
    }

    // The thread's loop.
    method Serve(events: seq<InputEvent>)
      modifies this, enigo
      ensures State() == InjRun(enigo.verdict, enigo.cursor, frame, old(State()), events)
    {
      var i := 0;
      while i < |events|
        invariant 0 <= i <= |events|
        invariant InjRun(enigo.verdict, enigo.cursor, frame, State(), events[i..])
               == InjRun(enigo.verdict, enigo.cursor, frame, old(State()), events)
      {
        assert events[i..][1..] == events[i + 1..];
        var _ := ApplyEvent(events[i]);
        i := i + 1;
      }
    }
  }
}

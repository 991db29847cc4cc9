// The injector thread (host/src/input.rs). Every OS call is recorded with
// whether it succeeded; a verdict function decides that for the n-th call.
module Injector {
  import opened Wrappers
  import T = Trackpad

  type Button = T.Button

  datatype Modifier = Shift | Control | Alt | Meta

  datatype Direction = PressIt | ReleaseIt | ClickIt

  datatype Axis = Vertical | Horizontal

  datatype Key = Named(name: string) | Mod(modifier: Modifier)

  datatype Call =
    | MoveMouse(x: int, y: int)
    | Location
    | ButtonCall(button: Button, direction: Direction)
    | SmoothScroll(length: int, axis: Axis)
    | Text(text: string)
    | KeyCall(key: Key, direction: Direction)

  datatype Entry = Entry(call: Call, ok: bool)

  // Whether the n-th OS call succeeds, and where the cursor is then.
  type Verdict = nat -> bool
  type Cursor = nat -> (int, int)

  datatype InputEvent =
    | Down(x: real, y: real)
    | Move(x: real, y: real)
    | Up(x: real, y: real)
    | MoveRel(dx: real, dy: real)
    | Click(button: Button)
    | Press(button: Button)
    | Release(button: Button)
    | Scroll(dx: real, dy: real)
    | TypeText(text: string)
    | KeyCombo(key: Key, mods: seq<Modifier>)
    | Reset

  // ------------------------------------------------------------- numbers

  // f64::trunc, towards zero.
  function Trunc(x: real): (r: int)
    ensures x >= 0.0 ==> r as real <= x < r as real + 1.0
    ensures x <= 0.0 ==> r as real - 1.0 < x <= r as real
  {
    if x >= 0.0 then x.Floor else -((-x).Floor)
  }

  // f64::round, halves away from zero.
  function Round(x: real): (r: int)
    ensures -0.5 <= r as real - x <= 0.5
  {
    if x >= 0.0 then (x + 0.5).Floor else -((-x + 0.5).Floor)
  }

  lemma RoundOfWhole(k: int)
    requires k >= 0
    ensures Round(k as real) == k
  {
  }

  function ClampInt(x: int, lo: int, hi: int): int { if x < lo then lo else if x > hi then hi else x }

  function ClampReal(x: real, lo: real, hi: real): real { if x < lo then lo else if x > hi then hi else x }

  function Min(a: real, b: real): real { if a <= b then a else b }

  // ------------------------------------------------------------- FrameMap

  datatype FrameMap = FrameMap(frameWidth: real, frameHeight: real, displayWidth: int, displayHeight: int,
                               scale: real, offsetX: real, offsetY: real)

  // A frame and a display have a size.
  predicate Sized(m: FrameMap) {
    m.frameWidth > 0.0 && m.frameHeight > 0.0 && m.displayWidth > 0 && m.displayHeight > 0
  }

  function NewFrameMap(frameWidth: nat, frameHeight: nat, displayWidth: int, displayHeight: int): (m: FrameMap)
    requires frameWidth > 0 && frameHeight > 0 && displayWidth > 0 && displayHeight > 0
    ensures Sized(m) && m.scale > 0.0
  {
    var fw, fh := frameWidth as real, frameHeight as real;
    var dw, dh := displayWidth as real, displayHeight as real;
    var scale := Min(fw / dw, fh / dh);
    FrameMap(fw, fh, displayWidth, displayHeight, scale, (fw - dw * scale) / 2.0, (fh - dh * scale) / 2.0)
  }

  // Frame fraction to display points along one axis, as `to_screen` has it.
  function ToPoint(x: real, frame: real, offset: real, scale: real): real
    requires scale > 0.0
  {
    (x * frame - offset) / scale
  }

  function OntoScreen(x: real, frame: real, offset: real, scale: real, points: int): int
    requires scale > 0.0
  {
    Round(ClampReal(ToPoint(x, frame, offset, scale), 0.0, points as real - 1.0))
  }

  function ToScreenX(m: FrameMap, x: real): int
    requires Sized(m) && m.scale > 0.0
  {
    OntoScreen(x, m.frameWidth, m.offsetX, m.scale, m.displayWidth)
  }

  function ToScreenY(m: FrameMap, y: real): int
    requires Sized(m) && m.scale > 0.0
  {
    OntoScreen(y, m.frameHeight, m.offsetY, m.scale, m.displayHeight)
  }

  function ToPointsX(m: FrameMap, dx: real): real
    requires m.scale > 0.0
  {
    dx * m.frameWidth / m.scale
  }

  function ToPointsY(m: FrameMap, dy: real): real
    requires m.scale > 0.0
  {
    dy * m.frameHeight / m.scale
  }

  type Map = m: FrameMap | Sized(m) && m.scale > 0.0 witness FrameMap(1.0, 1.0, 1, 1, 1.0, 0.0, 0.0)

  // ------------------------------------------------------------- the state machine

  datatype Inj = Inj(held: seq<Button>, moveX: real, moveY: real, scrollX: real, scrollY: real, log: seq<Entry>)

  const FRESH := Inj([], 0.0, 0.0, 0.0, 0.0, [])

  // The state after an event, and whether it returned Ok.
  datatype Outcome = Outcome(state: Inj, ok: bool)

  function Do(v: Verdict, s: Inj, call: Call): Inj { s.(log := s.log + [Entry(call, v(|s.log|))]) }

  predicate Ok(v: Verdict, s: Inj) { v(|s.log|) }

  function PressButton(v: Verdict, s: Inj, b: Button): Outcome {
    var s1 := Do(v, s, ButtonCall(b, PressIt));
    if !Ok(v, s) then Outcome(s1, false)
    else Outcome(s1.(held := if b in s.held then s.held else s.held + [b]), true)
  }

  function Retain(held: seq<Button>, b: Button): (r: seq<Button>)
    ensures forall c :: c in r <==> c in held && c != b
  {
    if held == [] then [] else (if held[0] == b then [] else [held[0]]) + Retain(held[1..], b)
  }

  function ReleaseButton(v: Verdict, s: Inj, b: Button): Outcome {
    var s1 := Do(v, s, ButtonCall(b, ReleaseIt));
    if !Ok(v, s) then Outcome(s1, false) else Outcome(s1.(held := Retain(s.held, b)), true)
  }

  function MoveTo(v: Verdict, m: Map, s: Inj, x: real, y: real): Inj {
    Do(v, s, MoveMouse(ToScreenX(m, x), ToScreenY(m, y)))
  }

  // Releases on Reset, stopping at the first that fails.
  function ReleaseHeld(v: Verdict, s: Inj, buttons: seq<Button>): Outcome
    decreases |buttons|
  {
    if buttons == [] then Outcome(s, true)
    else
      var s1 := Do(v, s, ButtonCall(buttons[0], ReleaseIt));
      if Ok(v, s) then ReleaseHeld(v, s1, buttons[1..]) else Outcome(s1, false)
  }

  // Moves the cursor by whole points, within the display.
  function Stepped(v: Verdict, at: Cursor, m: Map, s: Inj, stepX: int, stepY: int): Outcome {
    if stepX == 0 && stepY == 0 then Outcome(s, true)
    else
      var s1 := Do(v, s, Location);
      if !Ok(v, s) then Outcome(s1, false)
      else
        var (cx, cy) := at(|s.log|);
        var x, y := ClampInt(cx + stepX, 0, m.displayWidth - 1), ClampInt(cy + stepY, 0, m.displayHeight - 1);
        Outcome(Do(v, s1, MoveMouse(x, y)), Ok(v, s1))
  }

  function OnMoveRel(v: Verdict, at: Cursor, m: Map, s: Inj, dx: real, dy: real): Outcome {
    var x, y := s.moveX + ToPointsX(m, dx), s.moveY + ToPointsY(m, dy);
    var stepX, stepY := Trunc(x), Trunc(y);
    Stepped(v, at, m, s.(moveX := x - stepX as real, moveY := y - stepY as real), stepX, stepY)
  }

  // Scrolls by whole points, vertically first.
  function Scrolled(v: Verdict, s: Inj, stepX: int, stepY: int): Outcome {
    var s1 := if stepY != 0 then Do(v, s, SmoothScroll(stepY, Vertical)) else s;
    if stepY != 0 && !Ok(v, s) then Outcome(s1, false)
    else if stepX != 0 then Outcome(Do(v, s1, SmoothScroll(stepX, Horizontal)), Ok(v, s1))
    else Outcome(s1, true)
  }

  function OnScroll(v: Verdict, m: Map, s: Inj, dx: real, dy: real): Outcome {
    var x, y := s.scrollX - ToPointsX(m, dx), s.scrollY - ToPointsY(m, dy);
    var stepX, stepY := Trunc(x), Trunc(y);
    Scrolled(v, s.(scrollX := x - stepX as real, scrollY := y - stepY as real), stepX, stepY)
  }

  // How many of the modifiers go down before one fails.
  function PressedCount(v: Verdict, n: nat, mods: seq<Modifier>): (k: nat)
    ensures k <= |mods|
    ensures forall i :: n <= i < n + k ==> v(i)
    ensures k < |mods| ==> !v(n + k)
    decreases |mods|
  {
    if mods == [] || !v(n) then 0 else 1 + PressedCount(v, n + 1, mods[1..])
  }

  function KeyEntry(v: Verdict, n: nat, key: Key, d: Direction): Entry { Entry(KeyCall(key, d), v(n)) }

  // The presses of the first k modifiers, from the n-th call on.
  function Presses(v: Verdict, n: nat, mods: seq<Modifier>, k: nat): (r: seq<Entry>)
    requires k <= |mods|
    ensures |r| == k
  {
    if k == 0 then [] else Presses(v, n, mods, k - 1) + [KeyEntry(v, n + k - 1, Mod(mods[k - 1]), PressIt)]
  }

  // Their releases, last to first.
  function Releases(v: Verdict, n: nat, mods: seq<Modifier>, k: nat): (r: seq<Entry>)
    requires k <= |mods|
    ensures |r| == k
    decreases k
  {
    if k == 0 then [] else [KeyEntry(v, n, Mod(mods[k - 1]), ReleaseIt)] + Releases(v, n + 1, mods, k - 1)
  }

  predicate AllOk(log: seq<Entry>) { forall i :: 0 <= i < |log| ==> log[i].ok }

  lemma {:induction false} PressesPress(v: Verdict, n: nat, mods: seq<Modifier>, k: nat)
    requires k <= |mods|
    ensures forall e :: e in Presses(v, n, mods, k) ==> e.call.KeyCall? && e.call.direction == PressIt
  {
    if k == 0 {
    } else {
      PressesPress(v, n, mods, k - 1);
    }
  }

  lemma {:induction false} ReleasesRelease(v: Verdict, n: nat, mods: seq<Modifier>, k: nat)
    requires k <= |mods|
    ensures forall e :: e in Releases(v, n, mods, k) ==> e.call.KeyCall? && e.call.direction == ReleaseIt
    decreases k
  {
    if k == 0 {
    } else {
      ReleasesRelease(v, n + 1, mods, k - 1);
    }
  }

  // The last call before the releases: the click, or the press that failed.
  function Middle(v: Verdict, n: nat, key: Key, mods: seq<Modifier>): Entry {
    var k := PressedCount(v, n, mods);
    if k == |mods| then KeyEntry(v, n + k, key, ClickIt) else KeyEntry(v, n + k, Mod(mods[k]), PressIt)
  }

  // The calls of one key combination: presses up to and including the first
  // that fails, the click when none did, and the releases.
  function ComboCalls(v: Verdict, n: nat, key: Key, mods: seq<Modifier>): seq<Entry> {
    var k := PressedCount(v, n, mods);
    Presses(v, n, mods, k) + [Middle(v, n, key, mods)] + Releases(v, n + k + 1, mods, k)
  }

  function Apply(v: Verdict, at: Cursor, m: Map, s: Inj, e: InputEvent): Outcome {
    match e
    case Down(x, y) =>
      var s1 := MoveTo(v, m, s, x, y);
      if Ok(v, s) then PressButton(v, s1, T.Left) else Outcome(s1, false)
    case Move(x, y) => Outcome(MoveTo(v, m, s, x, y), Ok(v, s))
    case Up(x, y) =>
      var s1 := MoveTo(v, m, s, x, y);
      if Ok(v, s) then ReleaseButton(v, s1, T.Left) else Outcome(s1, false)
    case MoveRel(dx, dy) => OnMoveRel(v, at, m, s, dx, dy)
    case Click(b) => Outcome(Do(v, s, ButtonCall(b, ClickIt)), Ok(v, s))
    case Press(b) => PressButton(v, s, b)
    case Release(b) => ReleaseButton(v, s, b)
    case Scroll(dx, dy) => OnScroll(v, m, s, dx, dy)
    case TypeText(t) => Outcome(Do(v, s, Text(t)), Ok(v, s))
    case KeyCombo(key, mods) =>
      var calls := ComboCalls(v, |s.log|, key, mods);
      Outcome(s.(log := s.log + calls), AllOk(calls))
    case Reset => ReleaseHeld(v, s.(held := []), s.held)
  }

  // The thread's loop: an event that fails is only printed.
  function InjRun(v: Verdict, at: Cursor, m: Map, s: Inj, events: seq<InputEvent>): Inj
    decreases |events|
  {
    if events == [] then s else InjRun(v, at, m, Apply(v, at, m, s, events[0]).state, events[1..])
  }

  // ------------------------------------------------------------- buttons down on the OS

  // What one call does to the set of buttons that are down. A failed call
  // does nothing, and a click ends with the button up.
  function Effect(down: set<Button>, e: Entry): set<Button> {
    if !e.ok || !e.call.ButtonCall? then down
    else if e.call.direction == PressIt then down + {e.call.button}
    else down - {e.call.button}
  }

  function DownOn(log: seq<Entry>): set<Button> {
    if log == [] then {} else Effect(DownOn(log[..|log| - 1]), log[|log| - 1])
  }

  lemma DownAppend(log: seq<Entry>, e: Entry)
    ensures DownOn(log + [e]) == Effect(DownOn(log), e)
  {
    assert (log + [e])[..|log|] == log;
  }

  ghost predicate HeldCoversDown(s: Inj) { forall b :: b in DownOn(s.log) ==> b in s.held }

  // Which of the held buttons a Reset releases: those before the first
  // failing release.
  function Released(v: Verdict, n: nat, buttons: seq<Button>): (k: nat)
    ensures k <= |buttons|
    decreases |buttons|
  {
    if buttons == [] || !v(n) then 0 else 1 + Released(v, n + 1, buttons[1..])
  }

  lemma {:induction false} ReleaseHeldEffect(v: Verdict, s: Inj, buttons: seq<Button>)
    ensures
      var r, k := ReleaseHeld(v, s, buttons), Released(v, |s.log|, buttons);
      && r.state.held == s.held && (r.ok <==> k == |buttons|)
      && forall b :: b in DownOn(r.state.log) <==> b in DownOn(s.log) && b !in buttons[..k]
    decreases |buttons|
  {
    if buttons == [] {
    } else {
      var e := Entry(ButtonCall(buttons[0], ReleaseIt), v(|s.log|));
      DownAppend(s.log, e);
      if v(|s.log|) {
        var s1 := Do(v, s, ButtonCall(buttons[0], ReleaseIt));
        ReleaseHeldEffect(v, s1, buttons[1..]);
        var k := Released(v, |s1.log|, buttons[1..]);
        assert buttons[..k + 1] == [buttons[0]] + buttons[1..][..k];
      }
    }
  }

  lemma HeldStep(v: Verdict, at: Cursor, m: Map, s: Inj, e: InputEvent)
    requires HeldCoversDown(s) && (e.Reset? ==> Apply(v, at, m, s, e).ok)
    ensures HeldCoversDown(Apply(v, at, m, s, e).state)
  {
    match e
    case Reset =>
      ReleaseHeldEffect(v, s.(held := []), s.held);
      assert s.held[..|s.held|] == s.held;
    case KeyCombo(key, mods) =>
      ComboPressesNoButton(v, |s.log|, key, mods);
      OnlyOthers(s.log, s.log + ComboCalls(v, |s.log|, key, mods));
    case MoveRel(dx, dy) => MoveRelLeavesButtons(v, at, m, s, dx, dy);
    case Scroll(dx, dy) => ScrollLeavesButtons(v, m, s, dx, dy);
    case _ => PointerStep(v, at, m, s, e);
  }

  lemma ComboPressesNoButton(v: Verdict, n: nat, key: Key, mods: seq<Modifier>)
    ensures forall e :: e in ComboCalls(v, n, key, mods) ==> !e.call.ButtonCall?
  {
    var k := PressedCount(v, n, mods);
    PressesPress(v, n, mods, k);
    ReleasesRelease(v, n + k + 1, mods, k);
  }

  lemma DoEffect(v: Verdict, s: Inj, call: Call)
    ensures DownOn(Do(v, s, call).log) == Effect(DownOn(s.log), Entry(call, v(|s.log|)))
  {
    DownAppend(s.log, Entry(call, v(|s.log|)));
  }

  lemma PressStep(v: Verdict, s: Inj, b: Button)
    requires HeldCoversDown(s)
    ensures HeldCoversDown(PressButton(v, s, b).state)
  {
    DoEffect(v, s, ButtonCall(b, PressIt));
  }

  lemma ReleaseStep(v: Verdict, s: Inj, b: Button)
    requires HeldCoversDown(s)
    ensures HeldCoversDown(ReleaseButton(v, s, b).state)
  {
    DoEffect(v, s, ButtonCall(b, ReleaseIt));
  }

  lemma PointerStep(v: Verdict, at: Cursor, m: Map, s: Inj, e: InputEvent)
    requires HeldCoversDown(s)
    requires !e.Reset? && !e.KeyCombo? && !e.MoveRel? && !e.Scroll?
    ensures HeldCoversDown(Apply(v, at, m, s, e).state)
  {
    match e
    case Down(x, y) =>
      DoEffect(v, s, MoveMouse(ToScreenX(m, x), ToScreenY(m, y)));
      PressStep(v, MoveTo(v, m, s, x, y), T.Left);
    case Move(x, y) => DoEffect(v, s, MoveMouse(ToScreenX(m, x), ToScreenY(m, y)));
    case Up(x, y) =>
      DoEffect(v, s, MoveMouse(ToScreenX(m, x), ToScreenY(m, y)));
      ReleaseStep(v, MoveTo(v, m, s, x, y), T.Left);
    case Click(b) => DoEffect(v, s, ButtonCall(b, ClickIt));
    case Press(b) => PressStep(v, s, b);
    case Release(b) => ReleaseStep(v, s, b);
    case TypeText(t) => DoEffect(v, s, Text(t));
  }

  lemma MoveRelLeavesButtons(v: Verdict, at: Cursor, m: Map, s: Inj, dx: real, dy: real)
    ensures var n := OnMoveRel(v, at, m, s, dx, dy).state; n.held == s.held && DownOn(n.log) == DownOn(s.log)
  {
    var n := OnMoveRel(v, at, m, s, dx, dy).state;
    OnlyOthers(s.log, n.log);
  }

  lemma ScrollLeavesButtons(v: Verdict, m: Map, s: Inj, dx: real, dy: real)
    ensures var n := OnScroll(v, m, s, dx, dy).state; n.held == s.held && DownOn(n.log) == DownOn(s.log)
  {
    var n := OnScroll(v, m, s, dx, dy).state;
    OnlyOthers(s.log, n.log);
  }

  // Calls that press no button change none.
  lemma {:induction false} OnlyOthers(log: seq<Entry>, longer: seq<Entry>)
    requires log <= longer
    requires forall i :: |log| <= i < |longer| ==> !longer[i].call.ButtonCall?
    ensures DownOn(longer) == DownOn(log)
    decreases |longer|
  {
    if |log| < |longer| {
      OnlyOthers(log, longer[..|longer| - 1]);
    } else {
      assert log == longer;
    }
  }

  ghost predicate ResetsSucceed(v: Verdict, at: Cursor, m: Map, s: Inj, events: seq<InputEvent>)
    decreases |events|
  {
    events != [] ==>
      && (events[0].Reset? ==> Apply(v, at, m, s, events[0]).ok)
      && ResetsSucceed(v, at, m, Apply(v, at, m, s, events[0]).state, events[1..])
  }

  // Over any run, whatever fails: a button down on the OS is one the injector
  // knows it holds.
  lemma {:induction false} DownIsAlwaysHeld(v: Verdict, at: Cursor, m: Map, s: Inj, events: seq<InputEvent>)
    requires HeldCoversDown(s) && ResetsSucceed(v, at, m, s, events)
    ensures HeldCoversDown(InjRun(v, at, m, s, events))
    decreases |events|
  {
    if events == [] {
    } else {
      HeldStep(v, at, m, s, events[0]);
      DownIsAlwaysHeld(v, at, m, Apply(v, at, m, s, events[0]).state, events[1..]);
    }
  }

  // A Reset leaves no button down exactly when its first failing release comes
  // after every button that is down.
  lemma ResetLeavesNoneDownExactlyWhen(v: Verdict, at: Cursor, m: Map, s: Inj)
    requires HeldCoversDown(s)
    ensures
      var r, k := Apply(v, at, m, s, Reset), Released(v, |s.log|, s.held);
      && (DownOn(r.state.log) == {} <==> forall b :: b in DownOn(s.log) ==> b in s.held[..k])
      && (r.ok <==> k == |s.held|)
      && (r.ok ==> DownOn(r.state.log) == {})
  {
    ReleaseHeldEffect(v, s.(held := []), s.held);
    var r, k := Apply(v, at, m, s, Reset), Released(v, |s.log|, s.held);
    assert s.held[..|s.held|] == s.held;
    if forall b :: b in DownOn(s.log) ==> b in s.held[..k] {
      assert forall b :: b !in DownOn(r.state.log);
    }
  }

  // ------------------------------------------------------------- key combinations

  // Replays modifier calls against a stack of the modifiers that are down: a
  // press that succeeds goes on top, a release attempt must name the top one.
  function Replay(log: seq<Entry>, stack: seq<Modifier>): Option<seq<Modifier>>
    decreases |log|
  {
    if log == [] then Some(stack)
    else
      match log[0].call
      case KeyCall(Mod(m), PressIt) => Replay(log[1..], if log[0].ok then stack + [m] else stack)
      case KeyCall(Mod(m), ReleaseIt) =>
        if stack != [] && stack[|stack| - 1] == m then Replay(log[1..], stack[..|stack| - 1]) else None
      case _ => Replay(log[1..], stack)
  }

  lemma {:induction false} ReplayAppend(a: seq<Entry>, b: seq<Entry>, stack: seq<Modifier>)
    requires Replay(a, stack).Some?
    ensures Replay(a + b, stack) == Replay(b, Replay(a, stack).value)
    decreases |a|
  {
    if a == [] {
      assert a + b == b;
    } else {
      assert (a + b)[1..] == a[1..] + b;
      match a[0].call
      case KeyCall(Mod(m), PressIt) => ReplayAppend(a[1..], b, if a[0].ok then stack + [m] else stack);
      case KeyCall(Mod(m), ReleaseIt) => ReplayAppend(a[1..], b, stack[..|stack| - 1]);
      case _ => ReplayAppend(a[1..], b, stack);
    }
  }

  lemma {:induction false} ReplayPresses(v: Verdict, n: nat, mods: seq<Modifier>, k: nat)
    requires k <= |mods| && forall i :: n <= i < n + k ==> v(i)
    ensures Replay(Presses(v, n, mods, k), []) == Some(mods[..k])
  {
    if k == 0 {
    } else {
      var e := KeyEntry(v, n + k - 1, Mod(mods[k - 1]), PressIt);
      ReplayPresses(v, n, mods, k - 1);
      ReplayAppend(Presses(v, n, mods, k - 1), [e], []);
      assert [e][1..] == [] && mods[..k - 1] + [mods[k - 1]] == mods[..k];
    }
  }

  lemma {:induction false} ReplayReleases(v: Verdict, n: nat, mods: seq<Modifier>, k: nat)
    requires k <= |mods|
    ensures Replay(Releases(v, n, mods, k), mods[..k]) == Some([])
    decreases k
  {
    if k == 0 {
    } else {
      ReplayReleases(v, n + 1, mods, k - 1);
      assert Releases(v, n, mods, k)[1..] == Releases(v, n + 1, mods, k - 1);
      assert mods[..k][..k - 1] == mods[..k - 1];
    }
  }

  // Whatever fails, the calls nest: every modifier that went down gets exactly
  // one release attempt, in reverse order, and none is left over.
  lemma KeyComboNests(v: Verdict, n: nat, key: Key, mods: seq<Modifier>)
    requires key.Named?
    ensures Replay(ComboCalls(v, n, key, mods), []) == Some([])
  {
    var k := PressedCount(v, n, mods);
    var middle := Middle(v, n, key, mods);
    ReplayPresses(v, n, mods, k);
    assert Replay([middle], mods[..k]) == Some(mods[..k]) by {
      assert [middle][1..] == [];
    }
    ReplayAppend(Presses(v, n, mods, k), [middle], []);
    ReplayAppend(Presses(v, n, mods, k) + [middle], Releases(v, n + k + 1, mods, k), []);
    ReplayReleases(v, n + k + 1, mods, k);
  }

  // The key itself is clicked exactly when every press succeeds.
  lemma KeyIsClickedExactlyWhenAllPressed(v: Verdict, n: nat, key: Key, mods: seq<Modifier>)
    ensures (exists e :: e in ComboCalls(v, n, key, mods) && e.call == KeyCall(key, ClickIt))
      <==> forall i :: n <= i < n + |mods| ==> v(i)
  {
    var k := PressedCount(v, n, mods);
    PressesPress(v, n, mods, k);
    ReleasesRelease(v, n + k + 1, mods, k);
    if k == |mods| {
      assert Middle(v, n, key, mods) in ComboCalls(v, n, key, mods);
    } else {
      assert !v(n + k);
    }
  }

  // ------------------------------------------------------------- distances

  // The whole points asked for by the relative moves of a run, along x.
  function StepsX(m: Map, rest: real, events: seq<InputEvent>): int
    decreases |events|
  {
    if events == [] then 0
    else if !events[0].MoveRel? then StepsX(m, rest, events[1..])
    else
      var x := rest + ToPointsX(m, events[0].dx);
      Trunc(x) + StepsX(m, x - Trunc(x) as real, events[1..])
  }

  function StepsY(m: Map, rest: real, events: seq<InputEvent>): int
    decreases |events|
  {
    if events == [] then 0
    else if !events[0].MoveRel? then StepsY(m, rest, events[1..])
    else
      var y := rest + ToPointsY(m, events[0].dy);
      Trunc(y) + StepsY(m, y - Trunc(y) as real, events[1..])
  }

  // The exact distance in points.
  function ExactX(m: Map, events: seq<InputEvent>): real {
    if events == [] then 0.0
    else (if events[0].MoveRel? then ToPointsX(m, events[0].dx) else 0.0) + ExactX(m, events[1..])
  }

  function ExactY(m: Map, events: seq<InputEvent>): real {
    if events == [] then 0.0
    else (if events[0].MoveRel? then ToPointsY(m, events[0].dy) else 0.0) + ExactY(m, events[1..])
  }

  // The remainder after one event.
  function RestAfter(rest: real, delta: real): (r: real)
    ensures -1.0 < r < 1.0
  {
    rest + delta - Trunc(rest + delta) as real
  }

  function NextRestX(m: Map, rest: real, e: InputEvent): real {
    if e.MoveRel? then RestAfter(rest, ToPointsX(m, e.dx)) else rest
  }

  function NextRestY(m: Map, rest: real, e: InputEvent): real {
    if e.MoveRel? then RestAfter(rest, ToPointsY(m, e.dy)) else rest
  }

  lemma CarryOneX(m: Map, rest: real, events: seq<InputEvent>)
    requires events != []
    ensures var next := NextRestX(m, rest, events[0]);
      StepsX(m, rest, events) as real - rest - ExactX(m, events)
      == StepsX(m, next, events[1..]) as real - next - ExactX(m, events[1..])
  {
  }

  lemma CarryOneY(m: Map, rest: real, events: seq<InputEvent>)
    requires events != []
    ensures var next := NextRestY(m, rest, events[0]);
      StepsY(m, rest, events) as real - rest - ExactY(m, events)
      == StepsY(m, next, events[1..]) as real - next - ExactY(m, events[1..])
  {
  }

  // Nothing is lost: what has not been asked for yet is exactly the carried
  // remainder, always less than a point.
  lemma {:induction false} RemaindersCarryOver(v: Verdict, at: Cursor, m: Map, s: Inj, events: seq<InputEvent>)
    requires -1.0 < s.moveX < 1.0 && -1.0 < s.moveY < 1.0
    ensures
      var n := InjRun(v, at, m, s, events);
      && -1.0 < n.moveX < 1.0 && -1.0 < n.moveY < 1.0
      && StepsX(m, s.moveX, events) as real + n.moveX == s.moveX + ExactX(m, events)
      && StepsY(m, s.moveY, events) as real + n.moveY == s.moveY + ExactY(m, events)
    decreases |events|
  {
    if events == [] {
    } else {
      RestStep(v, at, m, s, events[0]);
      CarryOneX(m, s.moveX, events);
      CarryOneY(m, s.moveY, events);
      RemaindersCarryOver(v, at, m, Apply(v, at, m, s, events[0]).state, events[1..]);
    }
  }

  lemma RestStep(v: Verdict, at: Cursor, m: Map, s: Inj, e: InputEvent)
    ensures
      var n := Apply(v, at, m, s, e).state;
      n.moveX == NextRestX(m, s.moveX, e) && n.moveY == NextRestY(m, s.moveY, e)
  {
    if e.Reset? {
      ReleaseHeldKeepsRest(v, s.(held := []), s.held);
    }
  }

  lemma {:induction false} ReleaseHeldKeepsRest(v: Verdict, s: Inj, buttons: seq<Button>)
    ensures var n := ReleaseHeld(v, s, buttons).state; n.moveX == s.moveX && n.moveY == s.moveY
    decreases |buttons|
  {
    if buttons == [] {
    } else {
      ReleaseHeldKeepsRest(v, Do(v, s, ButtonCall(buttons[0], ReleaseIt)), buttons[1..]);
    }
  }
}

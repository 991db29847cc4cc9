// The two letterboxes a click goes through: the page fits the video frame into
// its element (client/input.mjs), and the frame holds the display the same way
// (host/src/input.rs). Coordinates are exact reals.
module Letterbox {
  import opened Wrappers
  import opened Injector

  datatype Rect = Rect(left: real, top: real, width: real, height: real)

  datatype Position = Position(x: real, y: real)

  // A rectangle that has an area. The page divides by the size of the frame
  // as drawn, which is zero for an element that is not shown.
  predicate Shown(r: Rect) { r.width > 0.0 && r.height > 0.0 }

  // `frameRect`: none before the video knows its size.
  function FrameRect(videoWidth: nat, videoHeight: nat, rect: Rect): (r: Option<Rect>)
    ensures r.None? <==> videoWidth == 0 || videoHeight == 0
  {
    if videoWidth == 0 || videoHeight == 0 then None
    else
      var w, h := videoWidth as real, videoHeight as real;
      var scale := Min(rect.width / w, rect.height / h);
      var left, top := rect.left + (rect.width - w * scale) / 2.0, rect.top + (rect.height - h * scale) / 2.0;
      Some(Rect(left, top, w * scale, h * scale))
  }

  // How far into an extent a coordinate is.
  function Portion(client: real, start: real, size: real): real
    requires size != 0.0
  {
    (client - start) / size
  }

  function FramePosition(frame: Option<Rect>, clientX: real, clientY: real): (r: Option<Position>)
    requires frame.Some? ==> Shown(frame.value)
  {
    if frame.None? then None
    else
      var f := frame.value;
      Some(Position(Portion(clientX, f.left, f.width), Portion(clientY, f.top, f.height)))
  }

  // Math.min(Math.max(v, 0), 1)
  function Clamp01(v: real): real {
    var low := if v >= 0.0 then v else 0.0;
    if low <= 1.0 then low else 1.0
  }

  // The coordinates of `positionMessage`.
  function Sent(pos: Position): Position { Position(Clamp01(pos.x), Clamp01(pos.y)) }

  // ------------------------------------------------------------- fitting

  lemma TimesCancels(a: real, b: real)
    requires b != 0.0
    ensures a * b / b == a
  {
  }

  lemma DivideTimes(a: real, b: real)
    requires b != 0.0
    ensures a / b * b == a
  {
  }

  lemma Scales(a: real, b: real, s: real)
    requires a <= b && s >= 0.0
    ensures a * s <= b * s
  {
  }

  lemma PositiveQuotient(a: real, b: real)
    requires a > 0.0 && b > 0.0
    ensures a / b > 0.0
  {
    DivideTimes(a, b);
  }

  // The smaller of the two ratios is the largest scale at which the inner box
  // still fits: it leaves no negative bar, and no bar at all on one axis.
  lemma FitFills(outerW: real, outerH: real, innerW: real, innerH: real)
    requires outerW > 0.0 && outerH > 0.0 && innerW > 0.0 && innerH > 0.0
    ensures
      var s := Min(outerW / innerW, outerH / innerH);
      && s > 0.0 && innerW * s <= outerW && innerH * s <= outerH
      && (innerW * s == outerW || innerH * s == outerH)
  {
    var s := Min(outerW / innerW, outerH / innerH);
    PositiveQuotient(outerW, innerW);
    PositiveQuotient(outerH, innerH);
    DivideTimes(outerW, innerW);
    DivideTimes(outerH, innerH);
    Scales(s, outerW / innerW, innerW);
    Scales(s, outerH / innerH, innerH);
  }

  // The host's bars, as its field comments promise.
  lemma OneBarIsAlwaysZero(frameW: nat, frameH: nat, displayW: int, displayH: int)
    requires frameW > 0 && frameH > 0 && displayW > 0 && displayH > 0
    ensures
      var m := NewFrameMap(frameW, frameH, displayW, displayH);
      && m.offsetX >= 0.0 && m.offsetY >= 0.0 && (m.offsetX == 0.0 || m.offsetY == 0.0)
      && m.offsetX + m.displayWidth as real * m.scale + m.offsetX == m.frameWidth
      && m.offsetY + m.displayHeight as real * m.scale + m.offsetY == m.frameHeight
  {
    FitFills(frameW as real, frameH as real, displayW as real, displayH as real);
  }

  // The page's bars, and the frame drawn between them.
  lemma FrameIsDrawnCentred(videoW: nat, videoH: nat, rect: Rect)
    requires videoW > 0 && videoH > 0 && Shown(rect)
    ensures
      var f := FrameRect(videoW, videoH, rect).value;
      && Shown(f) && f.left >= rect.left && f.top >= rect.top && (f.left == rect.left || f.top == rect.top)
      && f.left - rect.left == (rect.left + rect.width) - (f.left + f.width)
      && f.top - rect.top == (rect.top + rect.height) - (f.top + f.height)
      && f.width * videoH as real == f.height * videoW as real
  {
    FitFills(rect.width, rect.height, videoW as real, videoH as real);
  }

  // ------------------------------------------------------------- one axis

  // An axis of the whole path: the frame is drawn from `left` at `page` client
  // pixels per frame pixel, and the display inside it from `bar` at `scale`
  // frame pixels per point.
  datatype Axis1 = Axis1(left: real, page: real, frame: real, bar: real, scale: real, points: int)

  predicate Fits(a: Axis1) {
    && a.page > 0.0 && a.frame > 0.0 && a.bar >= 0.0 && a.scale > 0.0 && a.points > 0
    && a.bar + a.points as real * a.scale + a.bar == a.frame
  }

  // Where a display coordinate is drawn on the page.
  function Drawn(a: Axis1, p: real): real { a.left + (a.bar + p * a.scale) * a.page }

  // Where a client coordinate ends up, as the code computes it.
  function Hit(a: Axis1, client: real): int
    requires Fits(a)
  {
    Landing(a, Clamp01(Fraction(a, client)))
  }

  // The fraction of the frame at a client coordinate.
  function Fraction(a: Axis1, client: real): real
    requires Fits(a)
  {
    Portion(client, a.left, a.frame * a.page)
  }

  // The point the host makes of a fraction.
  function Landing(a: Axis1, fraction: real): int
    requires Fits(a)
  {
    OntoScreen(fraction, a.frame, a.bar, a.scale, a.points)
  }

  lemma ProductPositive(a: real, b: real)
    requires a > 0.0 && b > 0.0
    ensures a * b > 0.0
  {
  }

  // The fraction of a drawn coordinate is its share of the frame.
  function Share(a: Axis1, p: real): real
    requires Fits(a)
  {
    (a.bar + p * a.scale) / a.frame
  }

  lemma FractionOfDrawn(a: Axis1, p: real)
    requires Fits(a)
    ensures Fraction(a, Drawn(a, p)) == Share(a, p)
  {
    var q := Share(a, p);
    ProductPositive(a.frame, a.page);
    DivideTimes(a.bar + p * a.scale, a.frame);
    assert Drawn(a, p) - a.left == q * a.frame * a.page;
    assert q * a.frame * a.page == q * (a.frame * a.page);
    TimesCancels(q, a.frame * a.page);
  }

  // Clamping the fraction changes nothing that the clamp to the display would
  // not change anyway.
  lemma ClampsCompose(a: Axis1, p: real)
    requires Fits(a)
    ensures Landing(a, Clamp01(Share(a, p))) == Round(ClampReal(p, 0.0, a.points as real - 1.0))
  {
    var whole := Share(a, p);
    DivideTimes(a.bar + p * a.scale, a.frame);
    if whole < 0.0 {
      BelowZero(a, p, whole);
    } else if whole > 1.0 {
      BeyondEnd(a, p, whole);
    } else {
      Within(a, p, whole);
    }
  }

  lemma ToPointExact(x: real, frame: real, offset: real, scale: real, p: real)
    requires scale > 0.0 && x * frame == offset + p * scale
    ensures ToPoint(x, frame, offset, scale) == p
  {
    TimesCancels(p, scale);
    assert x * frame - offset == p * scale;
  }

  lemma Within(a: Axis1, p: real, whole: real)
    requires Fits(a) && whole * a.frame == a.bar + p * a.scale
    ensures Landing(a, whole) == Round(ClampReal(p, 0.0, a.points as real - 1.0))
  {
    ToPointExact(whole, a.frame, a.bar, a.scale, p);
  }

  lemma BelowZero(a: Axis1, p: real, whole: real)
    requires Fits(a) && whole < 0.0 && whole * a.frame == a.bar + p * a.scale
    ensures Landing(a, 0.0) == Round(ClampReal(p, 0.0, a.points as real - 1.0))
  {
    NegativeFactor(p, a.scale);
    DivideTimes(0.0 * a.frame - a.bar, a.scale);
    BelowOf((0.0 * a.frame - a.bar) / a.scale, 0.0, a.scale);
  }

  lemma BeyondEnd(a: Axis1, p: real, whole: real)
    requires Fits(a) && whole > 1.0 && whole * a.frame == a.bar + p * a.scale
    ensures Landing(a, 1.0) == Round(ClampReal(p, 0.0, a.points as real - 1.0))
  {
    var n := a.points as real;
    Scales(1.0, whole, a.frame);
    assert p * a.scale >= n * a.scale;
    AboveOf(p, n, a.scale);
    DivideTimes(1.0 * a.frame - a.bar, a.scale);
    AboveOf((1.0 * a.frame - a.bar) / a.scale, n, a.scale);
  }

  lemma NegativeFactor(p: real, s: real)
    requires s > 0.0 && p * s < 0.0
    ensures p < 0.0
  {
  }

  lemma BelowOf(p: real, q: real, s: real)
    requires s > 0.0 && p * s <= q * s
    ensures p <= q
  {
  }

  lemma AboveOf(p: real, q: real, s: real)
    requires s > 0.0 && p * s >= q * s
    ensures p >= q
  {
    BelowOf(q, p, s);
  }

  // The display coordinate drawn at a client coordinate.
  function Under(a: Axis1, client: real): real
    requires Fits(a)
  {
    ((client - a.left) / a.page - a.bar) / a.scale
  }

  lemma UnderIsDrawn(a: Axis1, client: real)
    requires Fits(a)
    ensures Drawn(a, Under(a, client)) == client
  {
    DivideTimes((client - a.left) / a.page - a.bar, a.scale);
    DivideTimes(client - a.left, a.page);
  }

  // What the path computes: the coordinate drawn there, kept on the display
  // and rounded.
  lemma HitIsRounded(a: Axis1, p: real)
    requires Fits(a)
    ensures Hit(a, Drawn(a, p)) == Round(ClampReal(p, 0.0, a.points as real - 1.0))
  {
    FractionOfDrawn(a, p);
    ClampsCompose(a, p);
  }

  function Abs(x: real): real { if x < 0.0 then -x else x }

  // No integer in range is nearer than the rounded and clamped one.
  lemma RoundedIsNearest(p: real, n: int, q: int)
    requires n > 0 && 0 <= q < n
    ensures
      var r := Round(ClampReal(p, 0.0, n as real - 1.0));
      0 <= r < n && Abs(p - r as real) <= Abs(p - q as real)
  {
    var c := ClampReal(p, 0.0, n as real - 1.0);
    RoundOfWhole(n - 1);
    RoundIsMonotone(0.0, c);
    RoundIsMonotone(c, (n - 1) as real);
    if c == p && q != Round(c) {
      assert Abs((q - Round(c)) as real) >= 1.0;
    }
  }

  lemma RoundIsMonotone(x: real, y: real)
    requires x <= y
    ensures Round(x) <= Round(y)
  {
  }

  lemma DrawnInOrder(a: Axis1, p: real, q: real)
    requires Fits(a)
    ensures p <= q <==> Drawn(a, p) <= Drawn(a, q)
  {
    DrawnDifference(a, q, p);
    ProductPositive(a.scale, a.page);
    SignOfProduct(q - p, a.scale * a.page);
  }

  lemma SignOfProduct(x: real, k: real)
    requires k > 0.0
    ensures x >= 0.0 <==> x * k >= 0.0
  {
  }

  lemma NegatedProduct(x: real, k: real)
    ensures (-x) * k == -(x * k)
  {
  }

  lemma AbsOfProduct(x: real, u: real, k: real)
    requires k > 0.0 && x == u * k
    ensures Abs(x) == Abs(u) * k
  {
    SignOfProduct(u, k);
    NegatedProduct(u, k);
    if u < 0.0 {
      assert Abs(u) == -u && Abs(x) == -x;
    } else {
      assert Abs(u) == u && Abs(x) == x;
    }
  }

  lemma InBetween(a: real, p: real, q: real, b: real)
    requires a == p && p <= q && q == b
    ensures a <= b
  {
  }

  // With the scale as one number.
  lemma ScaledNearer(x: real, y: real, u: real, w: real, k: real)
    requires k > 0.0 && x == u * k && y == w * k && Abs(u) <= Abs(w)
    ensures Abs(x) <= Abs(y)
  {
    AbsOfProduct(x, u, k);
    AbsOfProduct(y, w, k);
    Scales(Abs(u), Abs(w), k);
    InBetween(Abs(x), Abs(u) * k, Abs(w) * k, Abs(y));
  }

  lemma Distributes(x: real, y: real, k: real)
    ensures (x + y) * k == x * k + y * k && (x - y) * k == x * k - y * k
  {
  }

  lemma Associates(x: real, y: real, k: real)
    ensures x * y * k == x * (y * k)
  {
  }

  lemma DrawnIsLinear(a: Axis1, p: real)
    ensures Drawn(a, p) == a.left + a.bar * a.page + p * (a.scale * a.page)
  {
    Distributes(a.bar, p * a.scale, a.page);
    Associates(p, a.scale, a.page);
  }

  lemma DrawnDifference(a: Axis1, p: real, q: real)
    ensures Drawn(a, p) - Drawn(a, q) == (p - q) * (a.scale * a.page)
  {
    DrawnIsLinear(a, p);
    DrawnIsLinear(a, q);
    Distributes(p, q, a.scale * a.page);
  }

  lemma NearerIsDrawnNearer(a: Axis1, p: real, r: real, q: real)
    requires Fits(a) && Abs(p - r) <= Abs(p - q)
    ensures Abs(Drawn(a, p) - Drawn(a, r)) <= Abs(Drawn(a, p) - Drawn(a, q))
  {
    DrawnDifference(a, p, r);
    DrawnDifference(a, p, q);
    ProductPositive(a.scale, a.page);
    ScaledNearer(Drawn(a, p) - Drawn(a, r), Drawn(a, p) - Drawn(a, q), p - r, p - q, a.scale * a.page);
  }

  // On one axis: in range, and nearest as seen on the page.
  lemma HitIsNearest(a: Axis1, p: real, q: int)
    requires Fits(a) && 0 <= q < a.points
    ensures
      var r, client := Hit(a, Drawn(a, p)), Drawn(a, p);
      0 <= r < a.points && Abs(client - Drawn(a, r as real)) <= Abs(client - Drawn(a, q as real))
  {
    HitIsRounded(a, p);
    RoundedIsNearest(p, a.points, q);
    NearerIsDrawnNearer(a, p, Hit(a, Drawn(a, p)) as real, q as real);
  }

  lemma HitIsMonotone(a: Axis1, client: real, further: real)
    requires Fits(a) && client <= further
    ensures Hit(a, client) <= Hit(a, further)
  {
    var p, q := Under(a, client), Under(a, further);
    UnderIsDrawn(a, client);
    UnderIsDrawn(a, further);
    DrawnInOrder(a, p, q);
    HitIsRounded(a, p);
    HitIsRounded(a, q);
    RoundIsMonotone(ClampReal(p, 0.0, a.points as real - 1.0), ClampReal(q, 0.0, a.points as real - 1.0));
  }

  // ------------------------------------------------------------- both axes, through the code

  // The sizes of everything on the path.
  datatype Setup = Setup(frameW: nat, frameH: nat, displayW: int, displayH: int, element: Rect)

  predicate Real(s: Setup) {
    s.frameW > 0 && s.frameH > 0 && s.displayW > 0 && s.displayH > 0 && Shown(s.element)
  }

  function HostMap(s: Setup): Map
    requires Real(s)
  {
    NewFrameMap(s.frameW, s.frameH, s.displayW, s.displayH)
  }

  function PageScale(s: Setup): real
    requires Real(s)
  {
    Min(s.element.width / s.frameW as real, s.element.height / s.frameH as real)
  }

  function AxisX(s: Setup): Axis1
    requires Real(s)
  {
    var m := HostMap(s);
    var left := s.element.left + (s.element.width - m.frameWidth * PageScale(s)) / 2.0;
    Axis1(left, PageScale(s), m.frameWidth, m.offsetX, m.scale, s.displayW)
  }

  function AxisY(s: Setup): Axis1
    requires Real(s)
  {
    var m := HostMap(s);
    var top := s.element.top + (s.element.height - m.frameHeight * PageScale(s)) / 2.0;
    Axis1(top, PageScale(s), m.frameHeight, m.offsetY, m.scale, s.displayH)
  }

  // Where the display point (x, y) is drawn on the page: the frame fitted and
  // centred in the element, the display fitted and centred in the frame.
  function DrawnAt(s: Setup, x: int, y: int): Position
    requires Real(s)
  {
    Position(Drawn(AxisX(s), x as real), Drawn(AxisY(s), y as real))
  }

  lemma AxesFit(s: Setup)
    requires Real(s)
    ensures Fits(AxisX(s)) && Fits(AxisY(s))
  {
    OneBarIsAlwaysZero(s.frameW, s.frameH, s.displayW, s.displayH);
    FitFills(s.element.width, s.element.height, s.frameW as real, s.frameH as real);
  }

  // The whole path of a pointer position: `frameRect`, `framePosition`, the
  // clamp of `positionMessage`, and `to_screen`.
  function Point(s: Setup, client: Position): (int, int)
    requires Real(s)
  {
    FrameIsDrawnCentred(s.frameW, s.frameH, s.element);
    Path(HostMap(s), FrameRect(s.frameW, s.frameH, s.element).value, client)
  }

  lemma FrameOnPage(s: Setup)
    requires Real(s)
    ensures
      var f := FrameRect(s.frameW, s.frameH, s.element).value;
      && Shown(f)
      && f.left == AxisX(s).left && f.width == AxisX(s).frame * AxisX(s).page
      && f.top == AxisY(s).left && f.height == AxisY(s).frame * AxisY(s).page
  {
    FrameIsDrawnCentred(s.frameW, s.frameH, s.element);
  }

  // What the host uses of an axis.
  predicate OfMapX(a: Axis1, m: Map) {
    a.frame == m.frameWidth && a.bar == m.offsetX && a.scale == m.scale && a.points == m.displayWidth
  }

  predicate OfMapY(a: Axis1, m: Map) {
    a.frame == m.frameHeight && a.bar == m.offsetY && a.scale == m.scale && a.points == m.displayHeight
  }

  lemma ScreenIsLandingX(a: Axis1, m: Map, fraction: real)
    requires Fits(a) && OfMapX(a, m)
    ensures ToScreenX(m, fraction) == Landing(a, fraction)
  {
  }

  lemma ScreenIsLandingY(a: Axis1, m: Map, fraction: real)
    requires Fits(a) && OfMapY(a, m)
    ensures ToScreenY(m, fraction) == Landing(a, fraction)
  {
  }

  lemma AxesAreOfTheMap(s: Setup)
    requires Real(s)
    ensures OfMapX(AxisX(s), HostMap(s)) && OfMapY(AxisY(s), HostMap(s))
  {
  }

  // The path with the sizes it depends on as parameters.
  function Path(m: Map, frame: Rect, client: Position): (int, int)
    requires Shown(frame)
  {
    var sent := Sent(FramePosition(Some(frame), client.x, client.y).value);
    (ToScreenX(m, sent.x), ToScreenY(m, sent.y))
  }

  lemma FractionX(frame: Rect, a: Axis1, x: real)
    requires Shown(frame) && Fits(a) && frame.left == a.left && frame.width == a.frame * a.page
    ensures Portion(x, frame.left, frame.width) == Fraction(a, x)
  {
  }

  lemma FractionY(frame: Rect, a: Axis1, y: real)
    requires Shown(frame) && Fits(a) && frame.top == a.left && frame.height == a.frame * a.page
    ensures Portion(y, frame.top, frame.height) == Fraction(a, y)
  {
  }

  lemma PathIsHit(m: Map, frame: Rect, client: Position, a: Axis1, b: Axis1)
    requires Shown(frame) && Fits(a) && Fits(b) && OfMapX(a, m) && OfMapY(b, m)
    requires Portion(client.x, frame.left, frame.width) == Fraction(a, client.x)
    requires Portion(client.y, frame.top, frame.height) == Fraction(b, client.y)
    ensures Path(m, frame, client) == (Hit(a, client.x), Hit(b, client.y))
  {
    ScreenIsLandingX(a, m, Clamp01(Fraction(a, client.x)));
    ScreenIsLandingY(b, m, Clamp01(Fraction(b, client.y)));
  }

  lemma PointIsHit(s: Setup, client: Position)
    requires Real(s) && Fits(AxisX(s)) && Fits(AxisY(s))
    ensures Point(s, client) == (Hit(AxisX(s), client.x), Hit(AxisY(s), client.y))
  {
    FrameOnPage(s);
    AxesAreOfTheMap(s);
    var frame := FrameRect(s.frameW, s.frameH, s.element).value;
    FractionX(frame, AxisX(s), client.x);
    FractionY(frame, AxisY(s), client.y);
    PathIsHit(HostMap(s), frame, client, AxisX(s), AxisY(s));
  }

  // A click where a display point is drawn lands on exactly that point.
  lemma LetterboxesUndoEachOther(s: Setup, x: int, y: int)
    requires Real(s) && 0 <= x < s.displayW && 0 <= y < s.displayH
    ensures Point(s, DrawnAt(s, x, y)) == (x, y)
  {
    AxesFit(s);
    PointIsHit(s, DrawnAt(s, x, y));
    HitIsRounded(AxisX(s), x as real);
    HitIsRounded(AxisY(s), y as real);
    RoundOfWhole(x);
    RoundOfWhole(y);
  }

  // Any click, on a bar or off the element, lands on the display, at the point
  // drawn nearest to it on either axis.
  lemma EveryClickHitsTheNearestPoint(s: Setup, client: Position, x: int, y: int)
    requires Real(s) && 0 <= x < s.displayW && 0 <= y < s.displayH
    ensures
      var (hitX, hitY) := Point(s, client);
      var hit, other := DrawnAt(s, hitX, hitY), DrawnAt(s, x, y);
      && 0 <= hitX < s.displayW && 0 <= hitY < s.displayH
      && Abs(client.x - hit.x) <= Abs(client.x - other.x)
      && Abs(client.y - hit.y) <= Abs(client.y - other.y)
  {
    AxesFit(s);
    PointIsHit(s, client);
    UnderIsDrawn(AxisX(s), client.x);
    UnderIsDrawn(AxisY(s), client.y);
    HitIsNearest(AxisX(s), Under(AxisX(s), client.x), x);
    HitIsNearest(AxisY(s), Under(AxisY(s), client.y), y);
  }

  // Moving right or down never moves the cursor left or up.
  lemma PointIsMonotone(s: Setup, client: Position, further: Position)
    requires Real(s) && client.x <= further.x && client.y <= further.y
    ensures Point(s, client).0 <= Point(s, further).0 && Point(s, client).1 <= Point(s, further).1
  {
    AxesFit(s);
    PointIsHit(s, client);
    PointIsHit(s, further);
    HitIsMonotone(AxisX(s), client.x, further.x);
    HitIsMonotone(AxisY(s), client.y, further.y);
  }
}

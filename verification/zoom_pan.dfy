/**
 The zoom-and-pan state of the map picture (util/use-zoom-and-pan.ts): an SVG
 viewBox whose origin starts so that the fitted picture is centred, moved by
 dragging, and scaled by the mouse wheel between fixed limits. The origin that
 is drawn is clamped to half an element around the initial one; the stored
 origin is not.
 */
module ZoomAndPan {
  import opened Wrappers
  import opened Common
  import opened MathUtil
  import opened Strings

  const MinScale: real := 0.05
  const MaxScale: real := 2.0
  /** The wheel zooms out by this factor per step, and in by its inverse. */
  const WheelStep: real := 1.1

  /** The hook's signals: stored origin, scale, whether the button is down, whether a drag moved, last drag offset. */
  datatype Viewport = Viewport(position: Point, scale: real, pressed: bool, panning: bool, lastPan: Point)

  /** `elementDimensions?.width ?? 0` and likewise for the height. */
  function SizeOr0(element: Option<Dimensions>): (d: Dimensions)
    ensures element.Some? ==> d == element.value
    ensures element.None? ==> d == Dimensions(0.0, 0.0)
  {
    element.GetOr(Dimensions(0.0, 0.0))
  }

  /** `initialViewBoxPosition`: the origin that puts the centred content in the middle of the element. */
  function InitialPosition(element: Option<Dimensions>, centred: Option<Dimensions>): (p: Point)
    ensures element.None? || centred.None? ==> p == Point(0.0, 0.0)
  {
    if element.None? || centred.None? then Point(0.0, 0.0)
    else Point(-(element.value.width - centred.value.width) / 2.0, -(element.value.height - centred.value.height) / 2.0)
  }

  /**
   Seen through the initial viewBox (scale 1), the middle of the element shows the
   middle of the centred content.
   */
  lemma InitialPositionCentres(element: Dimensions, centred: Dimensions)
    ensures var p := InitialPosition(Some(element), Some(centred));
      p.x + element.width / 2.0 == centred.width / 2.0 && p.y + element.height / 2.0 == centred.height / 2.0
  {
  }

  /** The state as the hook starts it: the stored origin follows the initial one, scale 1, nothing pressed. */
  function Start(element: Option<Dimensions>, centred: Option<Dimensions>): (s: Viewport)
    ensures s.position == InitialPosition(element, centred) && s.scale == 1.0 && !s.pressed && !s.panning
  {
    Viewport(InitialPosition(element, centred), 1.0, false, false, Point(0.0, 0.0))
  }

  /** `viewBoxDimensions`: the element's size times the scale, 0 for an unmeasured element. */
  function ViewBoxDimensions(element: Option<Dimensions>, scale: real): (d: Dimensions)
    ensures element.Some? && Positive(element.value) && scale > 0.0 ==> Positive(d)
  {
    var e := SizeOr0(element);
    Dimensions(e.width * scale, e.height * scale)
  }

  /** `limitedViewBoxPosition`: the stored origin clamped, per component, to the initial origin plus or minus half the element. */
  function LimitedPosition(s: Viewport, element: Option<Dimensions>, centred: Option<Dimensions>): (p: Point)
  {
    var init := InitialPosition(element, centred);
    var e := SizeOr0(element);
    Point(Bounded(s.position.x, init.x - e.width / 2.0, init.x + e.width / 2.0),
          Bounded(s.position.y, init.y - e.height / 2.0, init.y + e.height / 2.0))
  }

  /** The drawn origin stays within half an element of the initial one, and equals the stored origin whenever that does. */
  lemma LimitedPositionBounds(s: Viewport, element: Option<Dimensions>, centred: Option<Dimensions>)
    requires element.Some? ==> element.value.width >= 0.0 && element.value.height >= 0.0
    ensures var p := LimitedPosition(s, element, centred);
      var init := InitialPosition(element, centred);
      var e := SizeOr0(element);
      && init.x - e.width / 2.0 <= p.x <= init.x + e.width / 2.0
      && init.y - e.height / 2.0 <= p.y <= init.y + e.height / 2.0
      && (init.x - e.width / 2.0 <= s.position.x <= init.x + e.width / 2.0 ==> p.x == s.position.x)
      && (init.y - e.height / 2.0 <= s.position.y <= init.y + e.height / 2.0 ==> p.y == s.position.y)
  {
  }

  // ---------------------------------------------------------------------------
  // Wheel

  predicate ScaleInRange(s: Viewport) {
    MinScale <= s.scale <= MaxScale
  }

  /** The scale after one wheel step: smaller when scrolling up (`deltaY < 0`), larger otherwise, then clamped. */
  function WheelScale(scale: real, deltaY: real): (r: real)
    ensures MinScale <= r <= MaxScale
    ensures deltaY < 0.0 && scale > 0.0 ==> r <= scale || r == MinScale
    ensures deltaY >= 0.0 && scale > 0.0 ==> r >= scale || r == MaxScale
  {
    var factor := if deltaY < 0.0 then 1.0 / WheelStep else WheelStep;
    Bounded(scale * factor, MinScale, MaxScale)
  }

  /**
   `onSvgWheel`: rescale, then move the stored origin by the ratio of new to old
   viewBox size around the mouse position. An unmeasured element ignores the event.
   */
  function Wheel(s: Viewport, element: Option<Dimensions>, deltaY: real, offset: Point): (r: Viewport)
    requires element.Some? ==> Positive(element.value)
    requires s.scale > 0.0
    ensures element.None? ==> r == s
    ensures element.Some? ==> MinScale <= r.scale <= MaxScale
    ensures r.pressed == s.pressed && r.panning == s.panning && r.lastPan == s.lastPan
  {
    if element.None? then s
    else
      var e := element.value;
      var before := ViewBoxDimensions(element, s.scale);
      var scale := WheelScale(s.scale, deltaY);
      var now := ViewBoxDimensions(element, scale);
      var mouse := Point(offset.x / e.width * now.width + s.position.x, offset.y / e.height * now.height + s.position.y);
      var position := Point(
        mouse.x - (mouse.x - s.position.x) / before.width * now.width,
        mouse.y - (mouse.y - s.position.y) / before.height * now.height);
      s.(scale := scale, position := position)
  }

  /** A wheel step that the limits swallow (the scale does not change) leaves the origin where it was. */
  lemma WheelAtLimitKeepsPosition(s: Viewport, element: Option<Dimensions>, deltaY: real, offset: Point)
    requires element.Some? ==> Positive(element.value)
    requires s.scale > 0.0
    requires WheelScale(s.scale, deltaY) == s.scale
    ensures Wheel(s, element, deltaY, offset) == s
  {
    if element.Some? {
      var d := ViewBoxDimensions(element, s.scale);
      var r := Wheel(s, element, deltaY, offset);
      var mouse := Point(offset.x / element.value.width * d.width + s.position.x, offset.y / element.value.height * d.height + s.position.y);
      RatioOne(mouse.x - s.position.x, d.width);
      RatioOne(mouse.y - s.position.y, d.height);
      assert r.position == s.position;
    }
  }

  lemma RatioOne(a: real, w: real)
    requires w > 0.0
    ensures a / w * w == a
  {
  }

  // ---------------------------------------------------------------------------
  // Dragging

  /** `onSvgMouseDown`. */
  function MouseDown(s: Viewport, offset: Point): (r: Viewport)
    ensures r.pressed && r.lastPan == offset
    ensures r.position == s.position && r.scale == s.scale && r.panning == s.panning
  {
    s.(pressed := true, lastPan := offset)
  }

  /** `onSvgMouseMove`: while pressed, move the origin against the drag in viewBox units. */
  function MouseMove(s: Viewport, element: Option<Dimensions>, offset: Point): (r: Viewport)
    requires element.Some? ==> Positive(element.value)
    ensures !s.pressed || element.None? ==> r == s
    ensures r.scale == s.scale && r.pressed == s.pressed
  {
    if !s.pressed || element.None? then s
    else
      var e := element.value;
      var view := ViewBoxDimensions(element, s.scale);
      var delta := Point((s.lastPan.x - offset.x) * (view.width / e.width), (s.lastPan.y - offset.y) * (view.height / e.height));
      s.(panning := true, position := Point(s.position.x + delta.x, s.position.y + delta.y), lastPan := offset)
  }

  /** One drag step moves the origin by the mouse's movement, reversed and multiplied by the scale. */
  lemma MouseMoveDelta(s: Viewport, element: Dimensions, offset: Point)
    requires Positive(element) && s.pressed
    ensures var r := MouseMove(s, Some(element), offset);
      && r.panning && r.lastPan == offset
      && r.position.x == s.position.x + (s.lastPan.x - offset.x) * s.scale
      && r.position.y == s.position.y + (s.lastPan.y - offset.y) * s.scale
  {
    var view := ViewBoxDimensions(Some(element), s.scale);
    assert view.width / element.width == s.scale by {
      assert view.width == s.scale * element.width;
    }
    assert view.height / element.height == s.scale by {
      assert view.height == s.scale * element.height;
    }
  }

  /** A drag in two steps ends where the same drag in one step does: only its endpoints matter. */
  lemma DragPathIndependent(s: Viewport, element: Dimensions, via: Point, to: Point)
    requires Positive(element) && s.pressed
    ensures MouseMove(MouseMove(s, Some(element), via), Some(element), to) == MouseMove(s, Some(element), to)
  {
    var m := MouseMove(s, Some(element), via);
    var twice := MouseMove(m, Some(element), to);
    var once := MouseMove(s, Some(element), to);
    MouseMoveDelta(s, element, via);
    MouseMoveDelta(m, element, to);
    MouseMoveDelta(s, element, to);
    assert m.scale == s.scale && m.pressed && m.lastPan == via;
    assert twice.position.x == once.position.x by {
      var d1 := (s.lastPan.x - via.x) * s.scale;
      var d2 := (via.x - to.x) * s.scale;
      var d := (s.lastPan.x - to.x) * s.scale;
      assert m.position.x == s.position.x + d1;
      assert twice.position.x == m.position.x + d2;
      assert once.position.x == s.position.x + d;
      Telescope(s.lastPan.x, via.x, to.x, s.scale);
    }
    assert twice.position.y == once.position.y by {
      var d1 := (s.lastPan.y - via.y) * s.scale;
      var d2 := (via.y - to.y) * s.scale;
      var d := (s.lastPan.y - to.y) * s.scale;
      assert m.position.y == s.position.y + d1;
      assert twice.position.y == m.position.y + d2;
      assert once.position.y == s.position.y + d;
      Telescope(s.lastPan.y, via.y, to.y, s.scale);
    }
    assert twice.position == once.position;
  }

  lemma Telescope(a: real, b: real, c: real, k: real)
    ensures (a - b) * k + (b - c) * k == (a - c) * k
  {
  }

  /** `onSvgMouseUp`: the drag ends. */
  function MouseUp(s: Viewport): (r: Viewport)
    ensures !r.pressed && !r.panning
    ensures r.position == s.position && r.scale == s.scale && r.lastPan == s.lastPan
  {
    s.(pressed := false, panning := false)
  }

  /** `onSvgMouseLeave`: the button counts as released, but `isPanning` stays as it was. */
  function MouseLeave(s: Viewport): (r: Viewport)
    ensures !r.pressed && r.panning == s.panning
    ensures r.position == s.position && r.scale == s.scale && r.lastPan == s.lastPan
  {
    s.(pressed := false)
  }

  /** After the button is released or the mouse leaves, moving the mouse changes nothing. */
  lemma NoPanWhenReleased(s: Viewport, element: Option<Dimensions>, offset: Point)
    requires element.Some? ==> Positive(element.value)
    ensures MouseMove(MouseUp(s), element, offset) == MouseUp(s)
    ensures MouseMove(MouseLeave(s), element, offset) == MouseLeave(s)
  {
  }

  // ---------------------------------------------------------------------------
  // Events

  datatype Event =
    | WheelEvent(deltaY: real, offset: Point)
    | MouseDownEvent(offset: Point)
    | MouseMoveEvent(offset: Point)
    | MouseUpEvent
    | MouseLeaveEvent

  /** One event that reached its handler. */
  function Step(s: Viewport, element: Option<Dimensions>, e: Event): (r: Viewport)
    requires element.Some? ==> Positive(element.value)
    requires ScaleInRange(s)
    ensures ScaleInRange(r)
  {
    match e
    case WheelEvent(deltaY, offset) => Wheel(s, element, deltaY, offset)
    case MouseDownEvent(offset) => MouseDown(s, offset)
    case MouseMoveEvent(offset) => MouseMove(s, element, offset)
    case MouseUpEvent => MouseUp(s)
    case MouseLeaveEvent => MouseLeave(s)
  }

  function Run(s: Viewport, element: Option<Dimensions>, events: seq<Event>): (r: Viewport)
    requires element.Some? ==> Positive(element.value)
    requires ScaleInRange(s)
    ensures ScaleInRange(r)
  {
    if |events| == 0 then s else Step(Run(s, element, events[..|events| - 1]), element, events[|events| - 1])
  }

  /** From the start, whatever events arrive, the scale stays between its limits. */
  lemma ScaleAlwaysInRange(element: Option<Dimensions>, centred: Option<Dimensions>, events: seq<Event>)
    requires element.Some? ==> Positive(element.value)
    ensures MinScale <= Run(Start(element, centred), element, events).scale <= MaxScale
  {
  }

  // ---------------------------------------------------------------------------
  // The viewBox attribute

  /** `viewBoxString`: drawn origin and viewBox size, each rendered by `fmt`, separated by single spaces. */
  function ViewBoxString(s: Viewport, element: Option<Dimensions>, centred: Option<Dimensions>, fmt: real -> string): (r: string)
  {
    var p := LimitedPosition(s, element, centred);
    var d := ViewBoxDimensions(element, s.scale);
    Join([fmt(p.x), fmt(p.y), fmt(d.width), fmt(d.height)], ' ')
  }

  /** A number rendering without spaces can be read back from the attribute: its four fields, in order. */
  lemma ViewBoxStringFields(s: Viewport, element: Option<Dimensions>, centred: Option<Dimensions>, fmt: real -> string)
    requires forall v :: ' ' !in fmt(v)
    ensures var p := LimitedPosition(s, element, centred);
      var d := ViewBoxDimensions(element, s.scale);
      Split(ViewBoxString(s, element, centred, fmt), ' ') == [fmt(p.x), fmt(p.y), fmt(d.width), fmt(d.height)]
  {
    var p := LimitedPosition(s, element, centred);
    var d := ViewBoxDimensions(element, s.scale);
    var parts := [fmt(p.x), fmt(p.y), fmt(d.width), fmt(d.height)];
    SplitJoin(parts, ' ');
  }
}

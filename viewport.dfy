/**
 * The viewport arithmetic of ZoomableCanvas: how a canvas point is placed on the screen for the
 * current Offset and Scale, which part of the canvas is visible (ActualViewbox), how Scale and
 * Offset are coerced to show a requested Viewbox, and the rectangle the realization walk queries.
 */
module Viewport {
  import opened Geometry
  import Coordinates

  /** GetVisualPoint: canvas space to screen space, canvasPoint * Scale - Offset. */
  function GetVisualPoint(canvasPoint: Point, offset: Point, scale: real): (q: Point)
    ensures q.x + offset.x == canvasPoint.x * scale && q.y + offset.y == canvasPoint.y * scale
  {
    Point(canvasPoint.x * scale - offset.x, canvasPoint.y * scale - offset.y)
  }

  /** GetCanvasPoint: screen space to canvas space, (Offset + screenPoint) / Scale. */
  function GetCanvasPoint(screenPoint: Point, offset: Point, scale: real): (q: Point)
    requires scale != 0.0
    ensures q.x * scale == offset.x + screenPoint.x && q.y * scale == offset.y + screenPoint.y
  {
    Coordinates.DivideThenMultiply(offset.x + screenPoint.x, scale);
    Coordinates.DivideThenMultiply(offset.y + screenPoint.y, scale);
    Point((offset.x + screenPoint.x) / scale, (offset.y + screenPoint.y) / scale)
  }

  /** Placing a canvas point on the screen and reading it back is exact. */
  lemma {:induction false} CanvasPointRoundTrip(p: Point, offset: Point, scale: real)
    requires scale != 0.0
    ensures GetCanvasPoint(GetVisualPoint(p, offset, scale), offset, scale) == p
  {
    var q := GetCanvasPoint(GetVisualPoint(p, offset, scale), offset, scale);
    Coordinates.MultiplyCancels(q.x, p.x, scale);
    Coordinates.MultiplyCancels(q.y, p.y, scale);
  }

  /** Reading a screen point on the canvas and placing it back is exact. */
  lemma {:induction false} VisualPointRoundTrip(p: Point, offset: Point, scale: real)
    requires scale != 0.0
    ensures GetVisualPoint(GetCanvasPoint(p, offset, scale), offset, scale) == p
  {
    var q := GetCanvasPoint(p, offset, scale);
    assert q.x * scale == offset.x + p.x && q.y * scale == offset.y + p.y;
  }

  /**
   * The canvas's screen maps are the mark maps with slide zoom 1: a mark bound to the canvas's
   * Offset and Scale converts between canvas and image space exactly as the canvas converts
   * between screen and canvas space.
   */
  lemma CanvasMapsAreMarkMaps(p: Point, offset: Point, scale: real)
    requires scale != 0.0
    ensures GetCanvasPoint(p, offset, scale) == Coordinates.CanvasToMsi(p, offset, scale, 1)
    ensures GetVisualPoint(p, offset, scale) == Coordinates.MsiToCanvas(p, offset, scale, 1)
  {
  }

  /**
   * CoerceActualViewbox: the part of the canvas that is on screen, (Offset / Scale, RenderSize / Scale).
   * Its corners are the canvas points under the screen's top-left and bottom-right corners.
   */
  function ActualViewbox(offset: Point, scale: real, renderSize: Size): (r: Rect)
    requires scale != 0.0
    ensures r.Box?
    ensures Point(r.x, r.y) == GetCanvasPoint(Point(0.0, 0.0), offset, scale)
    ensures Point(r.Right(), r.Bottom()) == GetCanvasPoint(Point(renderSize.width, renderSize.height), offset, scale)
    ensures scale > 0.0 && renderSize.width >= 0.0 && renderSize.height >= 0.0 ==> r.WellFormed()
  {
    var r := Box(offset.x / scale, offset.y / scale, renderSize.width / scale, renderSize.height / scale);
    var tl := GetCanvasPoint(Point(0.0, 0.0), offset, scale);
    var br := GetCanvasPoint(Point(renderSize.width, renderSize.height), offset, scale);
    Coordinates.SolveScaled(tl.x, offset.x, scale);
    Coordinates.SolveScaled(tl.y, offset.y, scale);
    Coordinates.SolveScaled(br.x, offset.x + renderSize.width, scale);
    Coordinates.SolveScaled(br.y, offset.y + renderSize.height, scale);
    assert offset.x / scale + renderSize.width / scale == (offset.x + renderSize.width) / scale;
    assert offset.y / scale + renderSize.height / scale == (offset.y + renderSize.height) / scale;
    r
  }

  datatype Stretch = None | Fill | Uniform | UniformToFill

  datatype StretchDirection = UpOnly | DownOnly | Both

  /**
   * CoerceScale: once the panel has a positive render size and a Viewbox is set, Uniform picks the
   * largest scale at which the whole Viewbox is visible and UniformToFill the smallest scale at which
   * it covers the panel; DownOnly and UpOnly then forbid growing or shrinking past the requested
   * value. Otherwise the requested value stands. (The Viewbox validator admits only positive sizes.)
   */
  function CoerceScale(value: real, renderSize: Size, viewbox: Rect, stretch: Stretch, direction: StretchDirection): (num: real)
    requires viewbox.Box? ==> viewbox.width > 0.0 && viewbox.height > 0.0
    ensures !(renderSize.width > 0.0 && renderSize.height > 0.0 && viewbox.Box?) ==> num == value
    ensures direction == DownOnly ==> num <= value
    ensures direction == UpOnly ==> num >= value
    ensures stretch == None || stretch == Fill ==> num == value
    ensures renderSize.width > 0.0 && renderSize.height > 0.0 && viewbox.Box? && direction == Both ==>
      (stretch == Uniform ==>
         viewbox.width * num <= renderSize.width && viewbox.height * num <= renderSize.height &&
         (viewbox.width * num == renderSize.width || viewbox.height * num == renderSize.height)) &&
      (stretch == UniformToFill ==>
         viewbox.width * num >= renderSize.width && viewbox.height * num >= renderSize.height &&
         (viewbox.width * num == renderSize.width || viewbox.height * num == renderSize.height))
  {
    if renderSize.width > 0.0 && renderSize.height > 0.0 && viewbox.Box? then
      var sx := renderSize.width / viewbox.width;
      var sy := renderSize.height / viewbox.height;
      Coordinates.DivideThenMultiply(renderSize.width, viewbox.width);
      Coordinates.DivideThenMultiply(renderSize.height, viewbox.height);
      FitScale(sx, sy, viewbox.width, viewbox.height, renderSize.width, renderSize.height);
      var stretched :=
        match stretch
        case Uniform => Min(sx, sy)
        case UniformToFill => Max(sx, sy)
        case _ => value;
      match direction
      case DownOnly => Min(stretched, value)
      case UpOnly => Max(stretched, value)
      case Both => stretched
    else
      value
  }

  /**
   * StretchDirection only clamps what Stretch chose: DownOnly keeps the smaller of the stretched
   * scale and the requested one, UpOnly the larger.
   */
  lemma DirectionClamps(value: real, renderSize: Size, viewbox: Rect, stretch: Stretch)
    requires viewbox.Box? ==> viewbox.width > 0.0 && viewbox.height > 0.0
    ensures CoerceScale(value, renderSize, viewbox, stretch, DownOnly) ==
      Min(CoerceScale(value, renderSize, viewbox, stretch, Both), value)
    ensures CoerceScale(value, renderSize, viewbox, stretch, UpOnly) ==
      Max(CoerceScale(value, renderSize, viewbox, stretch, Both), value)
  {
  }

  /** Scaling by the smaller ratio fits inside, scaling by the larger covers. */
  lemma FitScale(sx: real, sy: real, vw: real, vh: real, rw: real, rh: real)
    requires vw > 0.0 && vh > 0.0 && sx * vw == rw && sy * vh == rh
    ensures vw * Min(sx, sy) <= rw && vh * Min(sx, sy) <= rh
    ensures vw * Max(sx, sy) >= rw && vh * Max(sx, sy) >= rh
  {
    if sx <= sy {
      assert vh * sx <= vh * sy;
    } else {
      assert vw * sy <= vw * sx;
    }
  }

  /**
   * CoerceOffset: with a Viewbox set, the offset that puts the Viewbox's centre, at the current
   * scale, in the middle of the panel. Otherwise the requested value stands.
   */
  function CoerceOffset(value: Point, viewbox: Rect, scale: real, renderSize: Size): (r: Point)
    ensures viewbox.Empty? ==> r == value
    ensures viewbox.Box? ==>
      GetVisualPoint(Point(viewbox.x + viewbox.width / 2.0, viewbox.y + viewbox.height / 2.0), r, scale)
        == Point(renderSize.width / 2.0, renderSize.height / 2.0)
  {
    if viewbox.Box? then
      Point((viewbox.x + viewbox.width / 2.0) * scale - renderSize.width / 2.0,
            (viewbox.y + viewbox.height / 2.0) * scale - renderSize.height / 2.0)
    else
      value
  }

  /**
   * The rectangle the realization walk queries in virtualizing mode: ActualViewbox grown by a tenth
   * of its width and height on every side.
   */
  function RealizationRect(viewbox: Rect): (r: Rect)
    requires viewbox.Box? && viewbox.WellFormed()
    ensures r.Box? && r.WellFormed() && ContainsRect(r, viewbox)
    ensures r.x == viewbox.x - viewbox.width / 10.0 && r.y == viewbox.y - viewbox.height / 10.0
    ensures r.width == viewbox.width * 1.2 && r.height == viewbox.height * 1.2
  {
    Inflate(viewbox, viewbox.width / 10.0, viewbox.height / 10.0)
  }

  /** Enumerable.Take(limit) on the query: at most limit ids, the first ones. */
  function Take(ids: seq<int>, limit: nat): (r: seq<int>)
    ensures |r| <= limit && r <= ids
    ensures |ids| <= limit ==> r == ids
    ensures |ids| > limit ==> r == ids[..limit]
  {
    if |ids| <= limit then ids else ids[..limit]
  }
}

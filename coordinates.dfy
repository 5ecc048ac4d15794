/**
 * CanvasCoordinationExtension: the affine maps between canvas space (what is drawn) and the
 * multi-scale image ("MSI") space in which marks are stored, given a pan offset, a zoom scale and
 * an integer slide zoom, plus the rotation of a point about a centre.
 *   image  = (canvas + offset) / (scale * slideZoom)
 *   canvas = image * (scale * slideZoom) - offset
 * Offsets apply to positions only; widths and heights are only scaled.
 */
module Coordinates {
  import opened Geometry

  /** The slide zoom the marks pass: the default argument of the conversion helpers. */
  const SlideZoom: int := 1

  /** The zoom factor every map divides or multiplies by. */
  function Factor(scale: real, slideZoom: int): real
  {
    scale * (slideZoom as real)
  }

  /** The Offset and Scale of the DeepZoomMark that the receiver overloads read. */
  datatype MarkFrame = MarkFrame(offset: Point, scale: real)

  /** Point.MsiToCanvas(offset, scale, slideZoom); its inverse is CanvasToMsi below. */
  function MsiToCanvas(p: Point, offset: Point, scale: real, slideZoom: int): Point
  {
    Point(p.x * Factor(scale, slideZoom) - offset.x, p.y * Factor(scale, slideZoom) - offset.y)
  }

  /**
   * Point.CanvasToMsi(offset, scale, slideZoom). The source divides by the factor; a zero factor
   * (an IEEE infinity or NaN there) is outside this model. Its result is the one image point that
   * MsiToCanvas sends back to p.
   */
  function CanvasToMsi(p: Point, offset: Point, scale: real, slideZoom: int): (q: Point)
    requires Factor(scale, slideZoom) != 0.0
    ensures MsiToCanvas(q, offset, scale, slideZoom) == p
    ensures forall q' :: MsiToCanvas(q', offset, scale, slideZoom) == p ==> q' == q
  {
    var f := Factor(scale, slideZoom);
    var q := Point((p.x + offset.x) / f, (p.y + offset.y) / f);
    DivideThenMultiply(p.x + offset.x, f);
    DivideThenMultiply(p.y + offset.y, f);
    forall q' | MsiToCanvas(q', offset, scale, slideZoom) == p
      ensures q' == q
    {
      SolveScaled(q'.x, p.x + offset.x, f);
      SolveScaled(q'.y, p.y + offset.y, f);
    }
    q
  }

  lemma DivideThenMultiply(a: real, f: real)
    requires f != 0.0
    ensures (a / f) * f == a
  {
  }

  /** a * f == b has the single solution a == b / f. */
  lemma SolveScaled(a: real, b: real, f: real)
    requires f != 0.0 && a * f == b
    ensures a == b / f
  {
  }

  lemma MultiplyCancels(a: real, b: real, f: real)
    requires f != 0.0 && a * f == b * f
    ensures a == b
  {
    assert (a - b) * f == 0.0;
  }

  /** The image-to-canvas map undone: converting a canvas point to the image and back is exact. */
  lemma CanvasRoundTrip(p: Point, offset: Point, scale: real, slideZoom: int)
    requires Factor(scale, slideZoom) != 0.0
    ensures MsiToCanvas(CanvasToMsi(p, offset, scale, slideZoom), offset, scale, slideZoom) == p
  {
  }

  /** The other direction: converting an image point to the canvas and back is exact. */
  lemma {:induction false} MsiRoundTrip(p: Point, offset: Point, scale: real, slideZoom: int)
    requires Factor(scale, slideZoom) != 0.0
    ensures CanvasToMsi(MsiToCanvas(p, offset, scale, slideZoom), offset, scale, slideZoom) == p
  {
    var c := MsiToCanvas(p, offset, scale, slideZoom);
    var q := CanvasToMsi(c, offset, scale, slideZoom);
    assert MsiToCanvas(p, offset, scale, slideZoom) == c;
  }

  /** Rect.CanvasToMsi(offset, scale, slideZoom): the origin moves like a point, the size is only divided. */
  function CanvasToMsiRect(r: Rect, offset: Point, scale: real, slideZoom: int): (q: Rect)
    requires r.Box? && Factor(scale, slideZoom) != 0.0
    ensures q.Box?
    ensures Point(q.x, q.y) == CanvasToMsi(Point(r.x, r.y), offset, scale, slideZoom)
    ensures q.width * Factor(scale, slideZoom) == r.width
    ensures q.height * Factor(scale, slideZoom) == r.height
    ensures Factor(scale, slideZoom) > 0.0 && r.WellFormed() ==> q.WellFormed()
  {
    var f := Factor(scale, slideZoom);
    var q := Box((r.x + offset.x) / f, (r.y + offset.y) / f, r.width / f, r.height / f);
    assert Point(q.x, q.y) == CanvasToMsi(Point(r.x, r.y), offset, scale, slideZoom);
    q
  }

  /**
   * DeepZoomMark.MsiToCanvas(Rect): the mark's own Offset and Scale; the origin moves like a point,
   * the size is only multiplied.
   */
  function MsiToCanvasRect(m: MarkFrame, r: Rect, slideZoom: int): (q: Rect)
    requires r.Box?
    ensures q.Box?
    ensures Point(q.x, q.y) == MsiToCanvas(Point(r.x, r.y), m.offset, m.scale, slideZoom)
    ensures q.width == r.width * Factor(m.scale, slideZoom)
    ensures q.height == r.height * Factor(m.scale, slideZoom)
    ensures Factor(m.scale, slideZoom) >= 0.0 && r.WellFormed() ==> q.WellFormed()
  {
    var offset := m.offset;
    var zoom := Factor(m.scale, slideZoom);
    Box(r.x * zoom - offset.x, r.y * zoom - offset.y, r.width * zoom, r.height * zoom)
  }

  /** Converting a canvas rectangle to the image and back is exact. */
  lemma {:induction false} CanvasRectRoundTrip(r: Rect, offset: Point, scale: real, slideZoom: int)
    requires r.Box? && Factor(scale, slideZoom) != 0.0
    ensures MsiToCanvasRect(MarkFrame(offset, scale), CanvasToMsiRect(r, offset, scale, slideZoom), slideZoom) == r
  {
    var q := CanvasToMsiRect(r, offset, scale, slideZoom);
    var back := MsiToCanvasRect(MarkFrame(offset, scale), q, slideZoom);
    assert Point(back.x, back.y) == Point(r.x, r.y);
    assert back.width == r.width && back.height == r.height;
  }

  /** Converting an image rectangle to the canvas and back is exact. */
  lemma {:induction false} MsiRectRoundTrip(r: Rect, offset: Point, scale: real, slideZoom: int)
    requires r.Box? && Factor(scale, slideZoom) != 0.0
    ensures CanvasToMsiRect(MsiToCanvasRect(MarkFrame(offset, scale), r, slideZoom), offset, scale, slideZoom) == r
  {
    var f := Factor(scale, slideZoom);
    var c := MsiToCanvasRect(MarkFrame(offset, scale), r, slideZoom);
    var q := CanvasToMsiRect(c, offset, scale, slideZoom);
    MsiRoundTrip(Point(r.x, r.y), offset, scale, slideZoom);
    assert Point(q.x, q.y) == Point(r.x, r.y);
    assert q.width * f == r.width * f;
    MultiplyCancels(q.width, r.width, f);
    assert q.height * f == r.height * f;
    MultiplyCancels(q.height, r.height, f);
  }

  /** DeepZoomMark.CanvasToMsi(Point): written out on its own, it agrees with the Point overload. */
  function MarkCanvasToMsi(m: MarkFrame, p: Point, slideZoom: int): (q: Point)
    requires Factor(m.scale, slideZoom) != 0.0
    ensures q == CanvasToMsi(p, m.offset, m.scale, slideZoom)
  {
    var offset := m.offset;
    var q := Point((p.x + offset.x) / Factor(m.scale, slideZoom), (p.y + offset.y) / Factor(m.scale, slideZoom));
    assert q.x == CanvasToMsi(p, m.offset, m.scale, slideZoom).x;
    assert q.y == CanvasToMsi(p, m.offset, m.scale, slideZoom).y;
    q
  }

  /** DeepZoomMark.MsiToCanvas(Point): written out on its own, it agrees with the Point overload. */
  function MarkMsiToCanvas(m: MarkFrame, p: Point, slideZoom: int): (q: Point)
    ensures q == MsiToCanvas(p, m.offset, m.scale, slideZoom)
  {
    var offset := m.offset;
    var q := Point(p.x * Factor(m.scale, slideZoom) - offset.x, p.y * Factor(m.scale, slideZoom) - offset.y);
    assert q.x == MsiToCanvas(p, m.offset, m.scale, slideZoom).x;
    assert q.y == MsiToCanvas(p, m.offset, m.scale, slideZoom).y;
    q
  }

  /**
   * Math.Cos and Math.Sin are not modelled: a rotation is given the constant it uses for pi and
   * the two trigonometric functions as opaque values.
   */
  datatype Trig = Trig(pi: real, cos: real -> real, sin: real -> real)

  /** Degrees to radians, as GetRotatePoint converts its angle. */
  function Radians(t: Trig, angle: real): real
  {
    angle * 2.0 * t.pi / 360.0
  }

  /**
   * GetRotatePoint: rotation of start about center, in the screen (clockwise) convention
   *   x' = dx cos a + dy sin a + cx,   y' = dy cos a - dx sin a + cy.
   */
  function GetRotatePoint(start: Point, center: Point, angle: real, t: Trig): (q: Point)
    // The centre is a fixed point of every rotation, whatever cos and sin return.
    ensures start == center ==> q == center
    // An angle whose cosine is 1 and sine 0 leaves every point where it is.
    ensures t.cos(Radians(t, angle)) == 1.0 && t.sin(Radians(t, angle)) == 0.0 ==> q == start
  {
    var a := Radians(t, angle);
    Point((start.x - center.x) * t.cos(a) + (start.y - center.y) * t.sin(a) + center.x,
          (start.y - center.y) * t.cos(a) - (start.x - center.x) * t.sin(a) + center.y)
  }

  function SquaredDistance(p: Point, q: Point): real
  {
    (p.x - q.x) * (p.x - q.x) + (p.y - q.y) * (p.y - q.y)
  }

  /** When cos^2 + sin^2 = 1 at the angle, rotation keeps the distance to the centre. */
  lemma {:induction false} RotateKeepsDistance(start: Point, center: Point, angle: real, t: Trig)
    requires var a := Radians(t, angle); t.cos(a) * t.cos(a) + t.sin(a) * t.sin(a) == 1.0
    ensures SquaredDistance(GetRotatePoint(start, center, angle, t), center) == SquaredDistance(start, center)
  {
    var a := Radians(t, angle);
    var c, s := t.cos(a), t.sin(a);
    var dx, dy := start.x - center.x, start.y - center.y;
    var q := GetRotatePoint(start, center, angle, t);
    assert q.x - center.x == dx * c + dy * s;
    assert q.y - center.y == dy * c - dx * s;
    calc {
      SquaredDistance(q, center);
      (dx * c + dy * s) * (dx * c + dy * s) + (dy * c - dx * s) * (dy * c - dx * s);
      (dx * dx + dy * dy) * (c * c + s * s);
      dx * dx + dy * dy;
    }
  }

  /** Rotating by an angle and then by its opposite (cos even, sin odd, cos^2 + sin^2 = 1) returns the start. */
  lemma {:induction false} RotateBack(start: Point, center: Point, angle: real, t: Trig)
    requires var a := Radians(t, angle); t.cos(a) * t.cos(a) + t.sin(a) * t.sin(a) == 1.0
    requires t.cos(Radians(t, -angle)) == t.cos(Radians(t, angle))
    requires t.sin(Radians(t, -angle)) == -t.sin(Radians(t, angle))
    ensures GetRotatePoint(GetRotatePoint(start, center, angle, t), center, -angle, t) == start
  {
    var a := Radians(t, angle);
    var c, s := t.cos(a), t.sin(a);
    var dx, dy := start.x - center.x, start.y - center.y;
    var q := GetRotatePoint(start, center, angle, t);
    var ex, ey := q.x - center.x, q.y - center.y;
    assert ex == dx * c + dy * s && ey == dy * c - dx * s;
    var r := GetRotatePoint(q, center, -angle, t);
    assert r.x - center.x == ex * c - ey * s;
    assert r.y - center.y == ey * c + ex * s;
    calc {
      ex * c - ey * s;
      (dx * c + dy * s) * c - (dy * c - dx * s) * s;
      dx * (c * c + s * s);
      dx;
    }
    calc {
      ey * c + ex * s;
      (dy * c - dx * s) * c + (dx * c + dy * s) * s;
      dy * (c * c + s * s);
      dy;
    }
  }
}

/**
 * RectangleMark: a rectangle mark stored as two image-space corner points. Redrawing converts both
 * corners to the canvas and frames them with the smallest rectangle that has them as opposite
 * corners, whichever way round they were given.
 */
module RectangleMarks {
  import opened Geometry
  import opened Coordinates

  /**
   * The rectangle spanned by two corners: its left and right sides lie at the two x coordinates and
   * its top and bottom at the two y coordinates, so its size is the corners' distance along each axis.
   */
  function CornerRect(a: Point, b: Point): (r: Rect)
    ensures r.Box? && r.WellFormed()
    ensures {a.x, b.x} == {r.x, r.Right()} && {a.y, b.y} == {r.y, r.Bottom()}
  {
    Box(Min(a.x, b.x), Min(a.y, b.y), Abs(a.x - b.x), Abs(a.y - b.y))
  }

  /** The two corners may be given either way round. */
  lemma CornerRectSymmetric(a: Point, b: Point)
    ensures CornerRect(a, b) == CornerRect(b, a)
  {
  }

  /** Both corners lie on the rectangle, and any box holding both corners holds the whole rectangle. */
  lemma {:induction false} CornerRectSmallest(a: Point, b: Point, s: Rect)
    ensures ContainsPoint(CornerRect(a, b), a) && ContainsPoint(CornerRect(a, b), b)
    ensures ContainsPoint(s, a) && ContainsPoint(s, b) ==> ContainsRect(s, CornerRect(a, b))
  {
    var r := CornerRect(a, b);
    assert r.x in {a.x, b.x} && r.Right() in {a.x, b.x};
    assert r.y in {a.y, b.y} && r.Bottom() in {a.y, b.y};
  }

  /** A well-formed box whose sides lie at the corners' coordinates is CornerRect itself. */
  lemma {:induction false} CornerRectUnique(a: Point, b: Point, r: Rect)
    requires r.Box? && r.WellFormed()
    requires {a.x, b.x} == {r.x, r.Right()} && {a.y, b.y} == {r.y, r.Bottom()}
    ensures r == CornerRect(a, b)
  {
    var c := CornerRect(a, b);
    assert r.x in {a.x, b.x} && r.Right() in {a.x, b.x};
    assert a.x in {r.x, r.Right()} && b.x in {r.x, r.Right()};
    assert r.y in {a.y, b.y} && r.Bottom() in {a.y, b.y};
    assert a.y in {r.y, r.Bottom()} && b.y in {r.y, r.Bottom()};
  }

  /** The image-space corners (MSIStartPoint, MSIEndPoint) and the bound of the drawn shape. */
  class RectangleMark {
    var msiStart: Point
    var msiEnd: Point
    var target: Rect

    constructor (msiStart: Point, msiEnd: Point)
      ensures this.msiStart == msiStart && this.msiEnd == msiEnd
    {
      this.msiStart := msiStart;
      this.msiEnd := msiEnd;
      target := Box(0.0, 0.0, 0.0, 0.0);
    }

    /** SetTargetActualBound: only hands the bound on; nothing is written back to the image corners. */
    method SetTargetActualBound(newBound: Rect)
      modifies this
      ensures target == newBound && msiStart == old(msiStart) && msiEnd == old(msiEnd)
    {
      target := newBound;
    }

    /**
     * UpdateShape: converts both corners to the canvas with the mark's offset and scale and draws
     * the rectangle they span.
     */
    method UpdateShape(offset: Point, scale: real)
      modifies this
      ensures msiStart == old(msiStart) && msiEnd == old(msiEnd)
      ensures target == CornerRect(MsiToCanvas(msiStart, offset, scale, SlideZoom),
                                   MsiToCanvas(msiEnd, offset, scale, SlideZoom))
    {
      var startPoint := MarkMsiToCanvas(MarkFrame(offset, scale), msiStart, SlideZoom);
      var endPoint := MarkMsiToCanvas(MarkFrame(offset, scale), msiEnd, SlideZoom);
      var x := Min(startPoint.x, endPoint.x);
      var y := Min(startPoint.y, endPoint.y);
      var width := Abs(startPoint.x - endPoint.x);
      var height := Abs(startPoint.y - endPoint.y);
      SetTargetActualBound(Box(x, y, width, height));
    }
  }
}

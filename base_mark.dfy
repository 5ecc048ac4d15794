/**
 * BaseMark: dragging and resizing a mark inside its parent element with the nine handles of its
 * frame. The clamping rules are pure functions of the parent's actual size and the old bound; the
 * mark object then commits the new bound to its Canvas position, its size and its target.
 * The parent's ActualWidth and ActualHeight are a Size.
 */
module Marks {
  import opened Options
  import opened Geometry

  /** The handle a thumb drags: the four corners, the four edge midpoints and the centre. */
  datatype DragDirection =
    | TopLeft | TopCenter | TopRight
    | MiddleLeft | MiddleCenter | MiddleRight
    | BottomLeft | BottomCenter | BottomRight
  {
    /** The handles that move the left edge. */
    predicate OnLeft() { this == TopLeft || this == MiddleLeft || this == BottomLeft }

    /** The handles that move the top edge. */
    predicate OnTop() { this == TopLeft || this == TopCenter || this == TopRight }

    /** The handles that move the right edge. */
    predicate OnRight() { this == TopRight || this == MiddleRight || this == BottomRight }

    /** The handles that move the bottom edge. */
    predicate OnBottom() { this == BottomLeft || this == BottomCenter || this == BottomRight }
  }

  /** A double as the sanitizer sees it: NaN or a number. */
  datatype Double = NaN | Num(value: real)

  /** A position along one axis and the extent from it: (top, height) or (left, width). */
  datatype Span = Span(start: real, extent: real)

  /** The smallest width and height that resizing from the left or the top leaves. */
  const MiniWidth: real := 10.0
  const MiniHeight: real := 10.0

  function NonNegative(x: real): real { if x < 0.0 then 0.0 else x }

  /** CorrectDoubleValue: NaN and negative values become 0, anything else is kept. */
  function CorrectDoubleValue(v: Double): (r: real)
    ensures r >= 0.0
    ensures v.NaN? || v.value < 0.0 ==> r == 0.0
    ensures v.Num? && v.value >= 0.0 ==> r == v.value
  {
    match v
    case NaN => 0.0
    case Num(x) => NonNegative(x)
  }

  /**
   * CorrectNewTop and CorrectNewLeft, along one axis whose parent extent is `limit`: a start that
   * would push the far edge past the parent is pulled back, and the result is never negative.
   */
  function CorrectNewStart(limit: real, start: real, extent: real): (r: real)
    ensures r >= 0.0
    ensures extent <= limit ==> r + extent <= limit
    ensures 0.0 <= start && start + extent <= limit ==> r == start
    // an overshooting start is pulled back until the far edge meets the parent's
    ensures 0.0 <= extent <= limit && start + extent > limit ==> r + extent == limit
    // a negative start becomes 0
    ensures extent <= limit && start < 0.0 ==> r == 0.0
  {
    NonNegative(if start + extent > limit then limit - extent else start)
  }

  /**
   * CorrectNewWidth and CorrectNewHeight, along one axis whose parent extent is `limit`: an extent
   * reaching past the parent is cut back to it, and the result is never negative.
   */
  function CorrectNewExtent(limit: real, start: real, extent: real): (r: real)
    ensures r >= 0.0
    ensures start <= limit ==> start + r <= limit
    ensures 0.0 <= extent && start + extent <= limit ==> r == extent
    // an extent reaching past the parent is cut back to the parent's edge
    ensures 0.0 <= start <= limit && start + extent > limit ==> start + r == limit
    // a negative extent that stays inside becomes 0
    ensures extent < 0.0 && start + extent <= limit ==> r == 0.0
  {
    NonNegative(if start + extent > limit then limit - start else extent)
  }

  /**
   * ResizeFromTop and ResizeFromLeft, along one axis: the near edge follows the pointer while the
   * far edge stays put; the near edge stops `minimum` before the old far edge and never leaves the
   * parent, and the extent that keeps the far edge is then clamped to the parent.
   */
  function ResizeFromNear(limit: real, startOld: real, extentOld: real, change: real, minimum: real): (r: Span)
    requires minimum >= 0.0
    ensures r.start >= 0.0 && r.extent >= 0.0
    // before the clamp the far edge is where it was
    ensures r.extent == CorrectNewExtent(limit, r.start, startOld + extentOld - r.start)
    ensures startOld + extentOld >= minimum ==> startOld + extentOld - r.start >= minimum
    ensures r.start <= limit ==> r.start + r.extent <= limit
    ensures 0.0 <= startOld + extentOld <= limit ==> r.start + r.extent == startOld + extentOld
    ensures 0.0 <= startOld + change && startOld + change + minimum <= startOld + extentOld ==>
              r.start == startOld + change
    // a near edge dragged past the far edge stops `minimum` before it
    ensures startOld + extentOld - minimum >= 0.0 && startOld + change + minimum > startOld + extentOld ==>
              r.start == startOld + extentOld - minimum
    // a near edge dragged out of the parent stops at 0
    ensures startOld + change < 0.0 && startOld + change + minimum <= startOld + extentOld ==> r.start == 0.0
  {
    var far := extentOld + startOld;
    var near := startOld + change;
    var startNew := NonNegative(if near + minimum > far then far - minimum else near);
    Span(startNew, CorrectNewExtent(limit, startNew, far - startNew))
  }

  /**
   * ResizeFromRight and ResizeFromBottom, along one axis: the near edge stays put and the far edge
   * follows the pointer up to `limit`; there is no minimum extent.
   */
  function ResizeFromFar(limit: real, startOld: real, extentOld: real, change: real): (e: real)
    ensures e >= 0.0
    ensures startOld <= limit ==> startOld + e <= limit
    ensures 0.0 <= extentOld + change && startOld + extentOld + change < limit ==>
              e == extentOld + change
    // a far edge dragged to or past the parent's edge stops exactly there
    ensures 0.0 <= startOld <= limit && startOld + extentOld + change >= limit ==> startOld + e == limit
    // a far edge dragged over the near edge leaves extent 0
    ensures extentOld + change < 0.0 && startOld + extentOld + change < limit ==> e == 0.0
  {
    NonNegative(if startOld + extentOld + change < limit then extentOld + change else limit - startOld)
  }

  /** Dragging the far edge onto the near edge leaves a zero extent: the right and bottom handles have no minimum. */
  lemma FarHasNoMinimum(limit: real, startOld: real, extentOld: real)
    requires 0.0 <= extentOld && startOld + 1.0 <= limit
    ensures ResizeFromFar(limit, startOld, extentOld, -extentOld) == 0.0
    ensures 0.0 < MiniWidth && 0.0 < MiniHeight
  {
  }

  /**
   * DragElement's new bound: the sanitized old origin moved by the pointer, each coordinate made
   * non-negative and pulled back so that the mark stays inside the parent; the size is kept.
   */
  function MovedBound(parent: Size, bound: Rect, horizontalChange: real, verticalChange: real): (r: Rect)
    requires bound.Box?
    ensures r.Box? && r.width == bound.width && r.height == bound.height
    ensures r.x >= 0.0 && r.y >= 0.0
    ensures bound.width <= parent.width ==> r.Right() <= parent.width
    ensures bound.height <= parent.height ==> r.Bottom() <= parent.height
    ensures var left := NonNegative(bound.x) + horizontalChange;
            0.0 <= left && left + bound.width <= parent.width ==> r.x == left
    ensures var top := NonNegative(bound.y) + verticalChange;
            0.0 <= top && top + bound.height <= parent.height ==> r.y == top
    // a mark pushed past the parent's right or bottom edge ends flush with it
    ensures 0.0 <= bound.width <= parent.width && NonNegative(bound.x) + horizontalChange + bound.width > parent.width ==>
              r.Right() == parent.width
    ensures 0.0 <= bound.height <= parent.height && NonNegative(bound.y) + verticalChange + bound.height > parent.height ==>
              r.Bottom() == parent.height
    // a mark pushed past the parent's left or top edge ends at 0
    ensures bound.width <= parent.width && NonNegative(bound.x) + horizontalChange < 0.0 ==> r.x == 0.0
    ensures bound.height <= parent.height && NonNegative(bound.y) + verticalChange < 0.0 ==> r.y == 0.0
  {
    var topOld := CorrectDoubleValue(Num(bound.y));
    var leftOld := CorrectDoubleValue(Num(bound.x));
    var topNew := CorrectDoubleValue(Num(topOld + verticalChange));
    var leftNew := CorrectDoubleValue(Num(leftOld + horizontalChange));
    Box(CorrectNewStart(parent.width, leftNew, bound.width), CorrectNewStart(parent.height, topNew, bound.height),
        bound.width, bound.height)
  }

  /**
   * ResizeElement's new bound for a handle: each of the four edge rules runs exactly when the handle
   * touches that edge, on the sanitized old bound; an axis no rule touches keeps its old values.
   * The bottom edge is bounded by the parent's width, as the bottom rule is written.
   */
  function ResizedBound(parent: Size, bound: Rect, direction: DragDirection,
                        horizontalChange: real, verticalChange: real): (r: Rect)
    requires bound.Box?
    ensures r.Box? && r.WellFormed() && r.x >= 0.0 && r.y >= 0.0
    ensures var leftOld := NonNegative(bound.x); var widthOld := NonNegative(bound.width);
            && (direction.OnLeft() ==>
                  Span(r.x, r.width) == ResizeFromNear(parent.width, leftOld, widthOld, horizontalChange, MiniWidth))
            && (direction.OnRight() ==>
                  r.x == leftOld && r.width == ResizeFromFar(parent.width, leftOld, widthOld, horizontalChange))
            && (!direction.OnLeft() && !direction.OnRight() ==> r.x == leftOld && r.width == widthOld)
    ensures var topOld := NonNegative(bound.y); var heightOld := NonNegative(bound.height);
            && (direction.OnTop() ==>
                  Span(r.y, r.height) == ResizeFromNear(parent.height, topOld, heightOld, verticalChange, MiniHeight))
            && (direction.OnBottom() ==>
                  r.y == topOld && r.height == ResizeFromFar(parent.width, topOld, heightOld, verticalChange))
            && (!direction.OnTop() && !direction.OnBottom() ==> r.y == topOld && r.height == heightOld)
  {
    var topOld := CorrectDoubleValue(Num(bound.y));
    var leftOld := CorrectDoubleValue(Num(bound.x));
    var widthOld := CorrectDoubleValue(Num(bound.width));
    var heightOld := CorrectDoubleValue(Num(bound.height));
    var horizontal :=
      if direction.OnLeft() then ResizeFromNear(parent.width, leftOld, widthOld, horizontalChange, MiniWidth)
      else if direction.OnRight() then Span(leftOld, ResizeFromFar(parent.width, leftOld, widthOld, horizontalChange))
      else Span(leftOld, widthOld);
    var vertical :=
      if direction.OnTop() then ResizeFromNear(parent.height, topOld, heightOld, verticalChange, MiniHeight)
      else if direction.OnBottom() then Span(topOld, ResizeFromFar(parent.width, topOld, heightOld, verticalChange))
      else Span(topOld, heightOld);
    Box(horizontal.start, vertical.start, horizontal.extent, vertical.extent)
  }

  /**
   * Because the bottom edge is checked against the parent's width, in a parent wider than it is
   * tall the bottom handle can pull the mark below the parent's bottom.
   */
  lemma BottomCanLeaveTallParent()
    ensures var r := ResizedBound(Size(400.0, 200.0), Box(0.0, 100.0, 10.0, 50.0), BottomCenter, 0.0, 150.0);
            r.height == 200.0 && r.Bottom() > 200.0
  {
  }

  /** No handle moves both the left and the right edge, or both the top and the bottom edge. */
  lemma HandlesAreExclusive(direction: DragDirection)
    ensures !(direction.OnLeft() && direction.OnRight())
    ensures !(direction.OnTop() && direction.OnBottom())
    ensures direction.OnLeft() || direction.OnRight() || direction.OnTop() || direction.OnBottom()
            <==> direction != MiddleCenter
  {
  }

  /**
   * Pulling the top-left corner of a 100x100 mark at the origin by (+500,+500) in a 200x200 parent
   * stops both near edges 10 before the far ones: (90,90,10,10).
   */
  lemma TopLeftOvershootExample()
    ensures ResizedBound(Size(200.0, 200.0), Box(0.0, 0.0, 100.0, 100.0), TopLeft, 500.0, 500.0)
            == Box(90.0, 90.0, 10.0, 10.0)
  {
  }

  /** Pulling the bottom-right corner of (10,10,100,50) by (+20,+10) in a 200x200 parent gives (10,10,120,60). */
  lemma BottomRightExample()
    ensures ResizedBound(Size(200.0, 200.0), Box(10.0, 10.0, 100.0, 50.0), BottomRight, 20.0, 10.0)
            == Box(10.0, 10.0, 120.0, 60.0)
  {
  }

  /** What the drag handler hands on, in order: the "changing" notification, then the new target bound. */
  datatype MarkEvent = Changing(bound: Rect) | BoundSet(bound: Rect)

  /**
   * A mark with its Canvas position and size, the bound of the element it frames (read by
   * GetTargetActualBound and written by SetTargetActualBound), whether it may be edited, the actual
   * size of its drag parent, and the notifications it has raised.
   */
  class BaseMark {
    var canvasTop: real
    var canvasLeft: real
    var width: real
    var height: real
    var target: Rect
    var editable: bool
    var parent: Size
    var events: seq<MarkEvent>

    /** A new mark is editable and its target bound is the default rectangle. */
    constructor (parent: Size)
      ensures this.parent == parent && editable && target == Box(0.0, 0.0, 0.0, 0.0) && events == []
    {
      this.parent := parent;
      editable := true;
      target := Box(0.0, 0.0, 0.0, 0.0);
      canvasTop, canvasLeft, width, height := 0.0, 0.0, 0.0, 0.0;
      events := [];
    }

    /** DragElement: moves the mark to MovedBound and returns it; the size and the target stay. */
    method DragElement(horizontalChange: real, verticalChange: real) returns (r: Rect)
      requires target.Box?
      modifies this
      ensures target == old(target) && parent == old(parent)
      ensures r == MovedBound(parent, target, horizontalChange, verticalChange)
      ensures canvasTop == r.y && canvasLeft == r.x
      ensures width == old(width) && height == old(height)
      ensures editable == old(editable) && events == old(events)
    {
      r := MovedBound(parent, target, horizontalChange, verticalChange);
      canvasTop := r.y;
      canvasLeft := r.x;
    }

    /**
     * ResizeElement: without a thumb nothing changes and the result is the empty rectangle;
     * otherwise the mark takes ResizedBound for the thumb's handle as its size and position.
     */
    method ResizeElement(thumb: Option<DragDirection>, horizontalChange: real, verticalChange: real)
      returns (r: Rect)
      requires thumb.Some? ==> target.Box?
      modifies this
      ensures target == old(target) && editable == old(editable) && parent == old(parent)
      ensures thumb.None? ==> r == Empty && canvasTop == old(canvasTop) && canvasLeft == old(canvasLeft)
                              && width == old(width) && height == old(height)
      ensures thumb.Some? ==> r == ResizedBound(parent, target, thumb.value, horizontalChange, verticalChange)
                              && width == r.width && height == r.height
                              && canvasTop == r.y && canvasLeft == r.x
      ensures events == old(events)
    {
      if thumb.None? {
        return Empty;
      }
      r := ResizedBound(parent, target, thumb.value, horizontalChange, verticalChange);
      width := r.width;
      height := r.height;
      canvasTop := r.y;
      canvasLeft := r.x;
    }

    /**
     * OnDragDelta: a mark that is not editable only marks the event handled; an event not raised by
     * a thumb is ignored; otherwise the centre handle moves and every other handle resizes, the new
     * bound is announced and then given to the target, and the event is handled.
     */
    method OnDragDelta(thumb: Option<DragDirection>, horizontalChange: real, verticalChange: real)
      returns (handled: bool)
      requires editable && thumb.Some? ==> target.Box?
      modifies this
      ensures editable == old(editable) && parent == old(parent)
      ensures !editable ==> handled && target == old(target) && events == old(events)
      ensures editable && thumb.None? ==> !handled && target == old(target) && events == old(events)
      ensures editable && thumb.Some? ==>
                var bound := if thumb.value == MiddleCenter
                             then MovedBound(old(parent), old(target), horizontalChange, verticalChange)
                             else ResizedBound(old(parent), old(target), thumb.value, horizontalChange, verticalChange);
                handled && target == bound && events == old(events) + [Changing(bound), BoundSet(bound)]
                && canvasTop == bound.y && canvasLeft == bound.x
                && (thumb.value == MiddleCenter ==> width == old(width) && height == old(height))
                && (thumb.value != MiddleCenter ==> width == bound.width && height == bound.height)
      ensures !editable || thumb.None? ==>
                canvasTop == old(canvasTop) && canvasLeft == old(canvasLeft)
                && width == old(width) && height == old(height)
    {
      if !editable {
        return true;
      }
      if thumb.None? {
        return false;
      }
      var newBound;
      if thumb.value == MiddleCenter {
        newBound := DragElement(horizontalChange, verticalChange);
      } else {
        newBound := ResizeElement(thumb, horizontalChange, verticalChange);
      }
      events := events + [Changing(newBound)];
      target := newBound;
      events := events + [BoundSet(newBound)];
      handled := true;
    }
  }
}

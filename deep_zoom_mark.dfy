/**
 * DeepZoomMark: a mark whose bound is stored in image ("MSI") coordinates and drawn on the canvas
 * through the mark's Offset and Scale. Changing the offset, the scale or the stored rectangle
 * redraws the mark; finishing a drag stores the dragged canvas bound back in image coordinates,
 * with a guard that keeps that store from redrawing the mark.
 */
module DeepZoomMarks {
  import opened Geometry
  import opened Coordinates

  /**
   * The dependency properties MSIRect, Offset and Scale, the dragging guard, the bound of the
   * drawn shape (SetTargetActualBound), and the bounds UpdateShape has drawn, oldest first.
   */
  class DeepZoomMark {
    var msiRect: Rect
    var offset: Point
    var scale: real
    var isDragging: bool
    var target: Rect
    var redraws: seq<Rect>

    /** The stored rectangle is a box (its default is the zero rectangle). */
    ghost predicate Valid()
      reads this
    {
      msiRect.Box?
    }

    /** The property defaults: the zero rectangle, no offset and a scale of 1. */
    constructor ()
      ensures Valid() && !isDragging && redraws == []
      ensures msiRect == Box(0.0, 0.0, 0.0, 0.0) && offset == Point(0.0, 0.0) && scale == 1.0
    {
      msiRect := Box(0.0, 0.0, 0.0, 0.0);
      offset := Point(0.0, 0.0);
      scale := 1.0;
      isDragging := false;
      target := Box(0.0, 0.0, 0.0, 0.0);
      redraws := [];
    }

    /** UpdateShape: draws the stored image rectangle on the canvas with the current offset and scale. */
    method UpdateShape()
      requires Valid()
      modifies this
      ensures msiRect == old(msiRect) && offset == old(offset) && scale == old(scale)
      ensures isDragging == old(isDragging)
      ensures target == MsiToCanvasRect(MarkFrame(offset, scale), msiRect, SlideZoom)
      ensures redraws == old(redraws) + [target]
    {
      target := MsiToCanvasRect(MarkFrame(offset, scale), msiRect, SlideZoom);
      redraws := redraws + [target];
    }

    /** OnMSIRectChanged: redraws unless a drag is being stored. */
    method OnMSIRectChanged()
      requires Valid()
      modifies this
      ensures msiRect == old(msiRect) && offset == old(offset) && scale == old(scale)
      ensures isDragging == old(isDragging)
      ensures isDragging ==> target == old(target) && redraws == old(redraws)
      ensures !isDragging ==>
                target == MsiToCanvasRect(MarkFrame(offset, scale), msiRect, SlideZoom)
                && redraws == old(redraws) + [target]
    {
      if !isDragging {
        UpdateShape();
      }
    }

    /** OnOffsetChanged: always redraws. */
    method OnOffsetChanged()
      requires Valid()
      modifies this
      ensures msiRect == old(msiRect) && offset == old(offset) && scale == old(scale)
      ensures isDragging == old(isDragging)
      ensures target == MsiToCanvasRect(MarkFrame(offset, scale), msiRect, SlideZoom)
      ensures redraws == old(redraws) + [target]
    {
      UpdateShape();
    }

    /** OnScaleChanged: always redraws. */
    method OnScaleChanged()
      requires Valid()
      modifies this
      ensures msiRect == old(msiRect) && offset == old(offset) && scale == old(scale)
      ensures isDragging == old(isDragging)
      ensures target == MsiToCanvasRect(MarkFrame(offset, scale), msiRect, SlideZoom)
      ensures redraws == old(redraws) + [target]
    {
      UpdateShape();
    }

    /** Setting MSIRect: the change callback runs only when the value actually changes. */
    method SetMsiRect(value: Rect)
      requires Valid() && value.Box?
      modifies this
      ensures Valid() && msiRect == value && offset == old(offset) && scale == old(scale)
      ensures isDragging == old(isDragging)
      ensures value == old(msiRect) || isDragging ==> target == old(target) && redraws == old(redraws)
      ensures value != old(msiRect) && !isDragging ==>
                target == MsiToCanvasRect(MarkFrame(offset, scale), value, SlideZoom)
                && redraws == old(redraws) + [target]
    {
      if value != msiRect {
        msiRect := value;
        OnMSIRectChanged();
      }
    }

    /** Setting Offset: a new value redraws the mark. */
    method SetOffset(value: Point)
      requires Valid()
      modifies this
      ensures Valid() && offset == value && msiRect == old(msiRect) && scale == old(scale)
      ensures isDragging == old(isDragging)
      ensures value == old(offset) ==> target == old(target) && redraws == old(redraws)
      ensures value != old(offset) ==>
                target == MsiToCanvasRect(MarkFrame(value, scale), msiRect, SlideZoom)
                && redraws == old(redraws) + [target]
    {
      if value != offset {
        offset := value;
        OnOffsetChanged();
      }
    }

    /** Setting Scale: a new value redraws the mark. */
    method SetScale(value: real)
      requires Valid()
      modifies this
      ensures Valid() && scale == value && msiRect == old(msiRect) && offset == old(offset)
      ensures isDragging == old(isDragging)
      ensures value == old(scale) ==> target == old(target) && redraws == old(redraws)
      ensures value != old(scale) ==>
                target == MsiToCanvasRect(MarkFrame(offset, value), msiRect, SlideZoom)
                && redraws == old(redraws) + [target]
    {
      if value != scale {
        scale := value;
        OnScaleChanged();
      }
    }

    /**
     * RaisenDragCompletedEvent: stores the dragged canvas bound as an image rectangle with the guard
     * raised, so the store does not redraw the mark, and lowers the guard again. Drawing the stored
     * rectangle with the same offset and scale gives back the dragged bound.
     */
    method RaisenDragCompletedEvent(newBound: Rect)
      requires Valid() && !isDragging
      requires newBound.Box? && Factor(scale, SlideZoom) != 0.0
      modifies this
      ensures Valid() && !isDragging && offset == old(offset) && scale == old(scale)
      ensures msiRect == CanvasToMsiRect(newBound, offset, scale, SlideZoom)
      ensures MsiToCanvasRect(MarkFrame(offset, scale), msiRect, SlideZoom) == newBound
      ensures target == old(target) && redraws == old(redraws)
    {
      isDragging := true;
      SetMsiRect(CanvasToMsiRect(newBound, offset, scale, SlideZoom));
      isDragging := false;
      CanvasRectRoundTrip(newBound, offset, scale, SlideZoom);
    }
  }
}

# DeepZoom core in Dafny

This project models the core of DeepZoom, a WPF deep-zoom image viewer, and proves properties of
that model. The core has four parts.

- **ZoomableCanvas** is a virtualizing panel. It keeps a spatial index of its items: its own
  `PrivateSpatialIndex`, or the items source itself when that source answers spatial queries. It
  also keeps the linked list of realized item ids, in order.
  - On every frame, `RealizeOverride` moves a resumable walk at most `RealizationRate` times.
  - The walk first places the ids of the view query, which is the index's answer for the viewport
    grown by a tenth on each side, cut to `RealizationLimit` ids. Each id goes at the front of the
    list, in query order. A new container is realized only for an id not realized before.
  - The walk then visits the rest of the list from the back. It releases every container that
    holds neither mouse capture nor keyboard focus.
  - Inserting or removing items renumbers the realized ids in place.
- **MultiScaleImageSpatialItemsSource** answers spatial queries with the ids of the tiles a pyramid
  image shows.
  - It caches up to 300 decoded tiles, first in first out.
  - It fetches URI tiles in the background and cancels pending fetches when the level changes.
  - When the current level is above 18, a query first yields dummy ids spaced 500000 apart. This
    works around a WPF container-generator slowdown.
- **Marks** are shapes drawn over the image.
  - `BaseMark` moves its mark with the centre handle and resizes it with the eight edge and corner
    handles, always clamped to the parent.
  - `DeepZoomMark` stores its bound in image coordinates and redraws it on the canvas through its
    Offset and Scale.
  - `RectangleMark` spans two image-space corner points.
- **CanvasCoordinationExtension** holds the affine maps between canvas and image space, and the
  rotation of a point about a centre.

The files and modules follow that structure.

- `geometry.dfy`: `Options` and `Geometry` (WPF `Point`, `Size`, `Rect`, union and inflate).
- `spatial_index.dfy`: `SpatialIndex`.
- `realization.dfy`: `Realization`, the walk as functions of the realized list.
- `viewport.dfy`: `Viewport`.
- `canvas.dfy`: `Canvas`.
- `tile_cache.dfy`: `TileCache`.
- `coordinates.dfy`: `Coordinates`.
- `base_mark.dfy`: `Marks`.
- `deep_zoom_mark.dfy`: `DeepZoomMarks`.
- `rectangle_mark.dfy`: `RectangleMarks`.

Code that changes objects in place is a class with methods. Expression-only code is functions and
lemmas.

Modelling notes:

- Coordinates are `real`. IEEE rounding, infinities and NaN are not modelled. NaN appears only as
  an input case of `CorrectDoubleValue`.
- The four clamping helpers of `BaseMark` come in pairs that are the same rule on two axes. Each
  rule is defined once, over one axis, and takes the parent's extent along that axis.
- The bottom-edge resize is modelled as written: it clamps against the parent's `ActualWidth`.
  `Marks.BottomCanLeaveTallParent` shows a bottom edge that ends up outside a tall parent.
- The private index's `Reset` does not clear the quad tree. The model keeps the old entries.
- `InsertRange` does not renumber the items behind the inserted block. Its contract says exactly
  when the ids stay dense.

## Model

| member | source | states |
|---|---|---|
| Geometry.Union | Joysola.DeepZoom/DeepZoom/ZoomableCanvas/System.Windows.Controls/ZoomableCanvas.cs:61 | the union holds both rectangles, the empty rectangle is neutral on either side, and it is empty only when both are |
| Geometry.UnionSmallest | Joysola.DeepZoom/DeepZoom/ZoomableCanvas/System.Windows.Controls/ZoomableCanvas.cs:61 | the union is the smallest rectangle holding both: every box that holds each non-empty one holds the union |
| Geometry.Inflate | Joysola.DeepZoom/DeepZoom/ZoomableCanvas/System.Windows.Controls/ZoomableCanvas.cs:776 | each side moves outward by dx or dy; the result is empty exactly when a size would turn negative |
| Geometry.UnionAllCovers | Joysola.DeepZoom/DeepZoom/ZoomableCanvas/System.Windows.Controls/ZoomableCanvas.cs:53-66 | the folded union of the item bounds contains every non-empty bound |
| Geometry.UnionAllEmpty | Joysola.DeepZoom/DeepZoom/ZoomableCanvas/System.Windows.Controls/ZoomableCanvas.cs:53-66 | the folded union is empty exactly when every bound is empty |
| Geometry.UnionAllInsertEmpties | Joysola.DeepZoom/DeepZoom/ZoomableCanvas/System.Windows.Controls/ZoomableCanvas.cs:104-115 | inserting items with empty bounds anywhere leaves the extent unchanged |
| SpatialIndex.SpatialItem.constructor | Joysola.DeepZoom/DeepZoom/ZoomableCanvas/System.Windows.Controls/ZoomableCanvas.cs:33-37 | a new item has Index -1 and empty bounds |
| SpatialIndex.PriorityOf | Joysola.DeepZoom/DeepZoom/ZoomableCanvas/System.Windows.Controls/ZoomableCanvas.cs:82 | the tree priority is infinite exactly for empty bounds, and otherwise width + height >= 0 |
| SpatialIndex.PlacedFacts | Joysola.DeepZoom/DeepZoom/ZoomableCanvas/System.Windows.Controls/ZoomableCanvas.cs:106-111 | inserting a block into the tree adds exactly its items, each with empty bounds and infinite priority, and keeps every other entry |
| SpatialIndex.PrivateSpatialIndex.constructor | Joysola.DeepZoom/DeepZoom/ZoomableCanvas/System.Windows.Controls/ZoomableCanvas.cs:45-51 | a new index is empty, valid and dense, with no cached extent and no last query |
| SpatialIndex.PrivateSpatialIndex.GetExtent | Joysola.DeepZoom/DeepZoom/ZoomableCanvas/System.Windows.Controls/ZoomableCanvas.cs:53-66 | the extent is the union of all item bounds, cached, and nothing else changes |
| SpatialIndex.PrivateSpatialIndex.SetBounds | Joysola.DeepZoom/DeepZoom/ZoomableCanvas/System.Windows.Controls/ZoomableCanvas.cs:74-90 | equal bounds change nothing; new bounds re-place the item in the tree, drop the cached extent, raise ExtentChanged, and raise QueryInvalidated exactly when the old or the new bounds meet the last query |
| SpatialIndex.PrivateSpatialIndex.Query | Joysola.DeepZoom/DeepZoom/ZoomableCanvas/System.Windows.Controls/ZoomableCanvas.cs:97-102 | remembers the rectangle and yields the Index of exactly the items the tree reports, each once, in the order of the reported items |
| SpatialIndex.PrivateSpatialIndex.InsertRange | Joysola.DeepZoom/DeepZoom/ZoomableCanvas/System.Windows.Controls/ZoomableCanvas.cs:104-115 | count fresh items numbered from index, with empty bounds, go into the list at index and into the tree; QueryInvalidated is raised; dense ids stay dense exactly when nothing is inserted or the block is appended |
| SpatialIndex.PrivateSpatialIndex.InsertKeepsDense | Joysola.DeepZoom/DeepZoom/ZoomableCanvas/System.Windows.Controls/ZoomableCanvas.cs:104-115 | after an insertion the ids are dense exactly when the block is empty or appended |
| SpatialIndex.PrivateSpatialIndex.RemoveRange | Joysola.DeepZoom/DeepZoom/ZoomableCanvas/System.Windows.Controls/ZoomableCanvas.cs:117-134 | the range leaves the list and the tree; every later item gets Index = its new position; bounds are kept; the extent is dropped; both events are raised; dense ids stay dense |
| SpatialIndex.PrivateSpatialIndex.Reset | Joysola.DeepZoom/DeepZoom/ZoomableCanvas/System.Windows.Controls/ZoomableCanvas.cs:136-143 | the list becomes count fresh dense items with empty bounds, added to the tree that is not cleared; the extent is dropped; the events come in the order QueryInvalidated, ExtentChanged, QueryInvalidated |
| Realization.FindNext | Joysola.DeepZoom/DeepZoom/ZoomableCanvas/System.Windows.Controls/ZoomableCanvas.cs:788 | finds the first node after the cursor holding the id, or reports that none does |
| Realization.PlaceNew | Joysola.DeepZoom/DeepZoom/ZoomableCanvas/System.Windows.Controls/ZoomableCanvas.cs:788-808 | an id with no node after the cursor gets a new node linked at the cursor |
| Realization.PlaceRelink | Joysola.DeepZoom/DeepZoom/ZoomableCanvas/System.Windows.Controls/ZoomableCanvas.cs:788-808 | the first node after the cursor that holds the id is unlinked and relinked at the cursor; nothing else moves |
| Realization.MoveNext | Joysola.DeepZoom/DeepZoom/ZoomableCanvas/System.Windows.Controls/ZoomableCanvas.cs:783-827 | a finished walk does not yield; a move that does not yield ends the walk and changes neither the list nor the calls; each move makes at most one call and adds at most one node |
| Realization.MoveNextShape | Joysola.DeepZoom/DeepZoom/ZoomableCanvas/System.Windows.Controls/ZoomableCanvas.cs:763-828 | every MoveNext of the walk leaves a consistent position; a yielding move brings the walk closer to its end; a move returning false has finished and changed nothing |
| Realization.Enumerator | Joysola.DeepZoom/DeepZoom/ZoomableCanvas/System.Windows.Controls/ZoomableCanvas.cs:761-829 | the walk enumerator answers MoveNext at every consistent position and behaves as the driver relies on |
| Realization.Advance | Joysola.DeepZoom/DeepZoom/ZoomableCanvas/System.Windows.Controls/ZoomableCanvas.cs:746-755 | up to n moves leave a consistent position; a finished advance has reached the end |
| Realization.AdvanceThenRun | Joysola.DeepZoom/DeepZoom/ZoomableCanvas/System.Windows.Controls/ZoomableCanvas.cs:746-755 | a walk interrupted after n moves and resumed from the saved state completes exactly the uninterrupted walk |
| Realization.AdvanceFinishes | Joysola.DeepZoom/DeepZoom/ZoomableCanvas/System.Windows.Controls/ZoomableCanvas.cs:746-755 | n moves finish the walk exactly when it yields fewer than n times, and then they have done everything the whole walk does |
| Realization.WalkResult | Joysola.DeepZoom/DeepZoom/ZoomableCanvas/System.Windows.Controls/ZoomableCanvas.cs:783-827 | a whole walk leaves the query, in order, followed by the protected ids outside it; RealizeItem is called for each query id not realized before, in query order; VirtualizeItem is called for every other id outside the query, from the back; one yield per query id and per visited node |
| Realization.WalkFromPrefix | Joysola.DeepZoom/DeepZoom/ZoomableCanvas/System.Windows.Controls/ZoomableCanvas.cs:783-827 | for any list and query, repeats allowed: the walk resumed after k query ids ends with the query followed only by protected ids, within one yield per remaining query id plus one per node behind them |
| Realization.WalkStart | Joysola.DeepZoom/DeepZoom/ZoomableCanvas/System.Windows.Controls/ZoomableCanvas.cs:783-827 | for any list and query, a whole walk leaves the query followed only by protected ids, in at least one yield per query id and at most one more per node of the list |
| Realization.WalkPrefix | Joysola.DeepZoom/DeepZoom/ZoomableCanvas/System.Windows.Controls/ZoomableCanvas.cs:783-812 | for any list and query the list ends up starting with exactly the query with only protected ids behind it; when neither the list nor the query repeats an id, neither does the result |
| Realization.KeptTail | Joysola.DeepZoom/DeepZoom/ZoomableCanvas/System.Windows.Controls/ZoomableCanvas.cs:813-827 | the ids kept behind the query are outside it, protected, and without repeats |
| Realization.QuietForward | Joysola.DeepZoom/DeepZoom/ZoomableCanvas/System.Windows.Controls/ZoomableCanvas.cs:783-827 | on a list that is the query followed by protected ids, the rest of the walk makes no call and leaves the list as it is |
| Realization.SettledIsQuiet | Joysola.DeepZoom/DeepZoom/ZoomableCanvas/System.Windows.Controls/ZoomableCanvas.cs:783-827 | a walk over a list that is the query followed by protected ids makes no call and leaves the list as it is |
| Realization.SecondWalkIsQuiet | Joysola.DeepZoom/DeepZoom/ZoomableCanvas/System.Windows.Controls/ZoomableCanvas.cs:783-827 | for any list and query, repeats allowed, a second walk with the same query and the same protected containers makes no call and leaves the list as it is |
| Realization.UnlinkIsWithout | Joysola.DeepZoom/DeepZoom/ZoomableCanvas/System.Windows.Controls/ZoomableCanvas.cs:824 | in a list without repeats, unlinking a node is filtering out its id |
| Realization.ShiftAdded | Joysola.DeepZoom/DeepZoom/ZoomableCanvas/System.Windows.Controls/ZoomableCanvas.cs:646-655 | insertion keeps the list's length and moves each id at or above index up by count |
| Realization.ShiftAddedDistinct | Joysola.DeepZoom/DeepZoom/ZoomableCanvas/System.Windows.Controls/ZoomableCanvas.cs:646-655 | renumbering on insertion never merges two realized ids |
| Realization.ShiftRemoved | Joysola.DeepZoom/DeepZoom/ZoomableCanvas/System.Windows.Controls/ZoomableCanvas.cs:668-684 | removal never lengthens the realized list |
| Realization.ShiftRemovedUnaffected | Joysola.DeepZoom/DeepZoom/ZoomableCanvas/System.Windows.Controls/ZoomableCanvas.cs:668-684 | removing no items, or only items above every realized id, leaves the realized list as it was |
| Realization.ShiftRemovedMember | Joysola.DeepZoom/DeepZoom/ZoomableCanvas/System.Windows.Controls/ZoomableCanvas.cs:668-684 | after removal, y is realized exactly when y was realized below the range, or y + count was realized above it |
| Realization.ShiftRoundTrip | Joysola.DeepZoom/DeepZoom/ZoomableCanvas/System.Windows.Controls/ZoomableCanvas.cs:640-704 | adding count items at index and then removing the same range gives back the realized list |
| Realization.ShiftRemovedInRange | Joysola.DeepZoom/DeepZoom/ZoomableCanvas/System.Windows.Controls/ZoomableCanvas.cs:668-684 | after removal every realized id is a valid index of the smaller collection |
| Realization.ShiftRemovedDistinct | Joysola.DeepZoom/DeepZoom/ZoomableCanvas/System.Windows.Controls/ZoomableCanvas.cs:668-684 | renumbering on removal keeps the list free of repeats |
| Viewport.GetVisualPoint | Joysola.DeepZoom/DeepZoom/ZoomableCanvas/System.Windows.Controls/ZoomableCanvas.cs:958-961 | the screen point plus Offset is the canvas point times Scale |
| Viewport.GetCanvasPoint | Joysola.DeepZoom/DeepZoom/ZoomableCanvas/System.Windows.Controls/ZoomableCanvas.cs:963-966 | for a non-zero Scale, the canvas point times Scale is Offset plus the screen point |
| Viewport.CanvasPointRoundTrip | Joysola.DeepZoom/DeepZoom/ZoomableCanvas/System.Windows.Controls/ZoomableCanvas.cs:958-966 | a canvas point placed on the screen and read back is unchanged |
| Viewport.VisualPointRoundTrip | Joysola.DeepZoom/DeepZoom/ZoomableCanvas/System.Windows.Controls/ZoomableCanvas.cs:958-966 | a screen point read on the canvas and placed back is unchanged |
| Viewport.CanvasMapsAreMarkMaps | Joysola.DeepZoom/DeepZoom/ZoomableCanvas/System.Windows.Controls/ZoomableCanvas.cs:958-966 | the canvas's screen maps are the mark maps with slide zoom 1 |
| Viewport.ActualViewbox | Joysola.DeepZoom/DeepZoom/ZoomableCanvas/System.Windows.Controls/ZoomableCanvas.cs:398-408 | the visible canvas rectangle has its corners at the canvas points under the screen's corners, and is well formed for a positive scale |
| Viewport.CoerceScale | Joysola.DeepZoom/DeepZoom/ZoomableCanvas/System.Windows.Controls/ZoomableCanvas.cs:516-549 | without a render size or a Viewbox the value stands; None and Fill leave it as requested; DownOnly never grows it and UpOnly never shrinks it; Uniform fits the Viewbox inside the panel and UniformToFill covers the panel |
| Viewport.DirectionClamps | Joysola.DeepZoom/DeepZoom/ZoomableCanvas/System.Windows.Controls/ZoomableCanvas.cs:536-544 | DownOnly gives the smaller of the Both scale and the requested value, UpOnly the larger |
| Viewport.FitScale | Joysola.DeepZoom/DeepZoom/ZoomableCanvas/System.Windows.Controls/ZoomableCanvas.cs:528-533 | scaling the Viewbox by the smaller ratio fits it inside the panel, and by the larger ratio covers the panel |
| Viewport.CoerceOffset | Joysola.DeepZoom/DeepZoom/ZoomableCanvas/System.Windows.Controls/ZoomableCanvas.cs:484-498 | with a Viewbox, the Viewbox's centre lands in the middle of the panel; otherwise the value stands |
| Viewport.RealizationRect | Joysola.DeepZoom/DeepZoom/ZoomableCanvas/System.Windows.Controls/ZoomableCanvas.cs:774-776 | the queried rectangle contains the viewbox and is it grown by a tenth of its size on every side |
| Viewport.Take | Joysola.DeepZoom/DeepZoom/ZoomableCanvas/System.Windows.Controls/ZoomableCanvas.cs:777 | at most limit ids, a prefix of the answer: all of it when it is short enough, otherwise exactly its first limit ids |
| Canvas.ZoomableCanvas.ViewRect | Joysola.DeepZoom/DeepZoom/ZoomableCanvas/System.Windows.Controls/ZoomableCanvas.cs:772-777 | the rectangle a walk queries is well formed and contains the actual viewbox |
| Canvas.ZoomableCanvas.OnItemsReset | Joysola.DeepZoom/DeepZoom/ZoomableCanvas/System.Windows.Controls/ZoomableCanvas.cs:706-731 | not hosting: no list and no index; hosting: an empty list and either the spatial items source or a fresh private index over the items |
| Canvas.ZoomableCanvas.OnItemsAdded | Joysola.DeepZoom/DeepZoom/ZoomableCanvas/System.Windows.Controls/ZoomableCanvas.cs:640-656 | the private index inserts the range, and the realized list becomes ShiftAdded of the old one |
| Canvas.ZoomableCanvas.OnItemsRemoved | Joysola.DeepZoom/DeepZoom/ZoomableCanvas/System.Windows.Controls/ZoomableCanvas.cs:658-684 | the private index removes the range, and the realized list becomes ShiftRemoved of the old one |
| Canvas.ZoomableCanvas.RealizeOverride | Joysola.DeepZoom/DeepZoom/ZoomableCanvas/System.Windows.Controls/ZoomableCanvas.cs:744-782 | the list and the calls become those of Advance over the saved or new walk with budget max(rate, 0); a finished walk answers null, otherwise the walk to resume; a new walk's view query is the index's answer for ViewRect; without a realized list nothing changes and the walk ends at its first move |
| Canvas.MoveBudget | Joysola.DeepZoom/DeepZoom/ZoomableCanvas/System.Windows.Controls/ZoomableCanvas.cs:747-755 | the driver loop computes exactly Advance with budget max(rate, 0) |
| Canvas.ShiftRealizedUp | Joysola.DeepZoom/DeepZoom/ZoomableCanvas/System.Windows.Controls/ZoomableCanvas.cs:646-655 | the in-place pass over the list computes ShiftAdded |
| Canvas.UnlinkRemoved | Joysola.DeepZoom/DeepZoom/ZoomableCanvas/System.Windows.Controls/ZoomableCanvas.cs:664-684 | the cursor pass over the list computes ShiftRemoved |
| Canvas.AdvanceStaysFinished | Joysola.DeepZoom/DeepZoom/ZoomableCanvas/System.Windows.Controls/ZoomableCanvas.cs:746-755 | once the walk has finished, a larger budget gives the same list, calls and position |
| Canvas.FinishedWithinBudget | Joysola.DeepZoom/DeepZoom/ZoomableCanvas/System.Windows.Controls/ZoomableCanvas.cs:744-756 | for any list and query: a new walk never finishes within |query| moves, always finishes within |query| + |list| + 1, and a finished walk leaves the query followed only by protected ids; without repeats it finishes exactly when the query and the ids behind it number fewer than n, and then the list and the calls are those of the whole walk |
| TileCache.Put | Joysola.DeepZoom/DeepZoom/MultiScaleImageSpatialItemsSource.cs:181-196 | a cached tile answers its bitmap and changes nothing; a new tile is cached with its own bitmap at the back of the queue |
| TileCache.PutValid | Joysola.DeepZoom/DeepZoom/MultiScaleImageSpatialItemsSource.cs:181-196 | the cache keeps at most 300 tiles, each queued once, and the queue holds exactly the cached tiles |
| TileCache.PutEvictsOldest | Joysola.DeepZoom/DeepZoom/MultiScaleImageSpatialItemsSource.cs:188-193 | a new tile in a full cache forgets exactly the oldest tile and keeps every other tile with its bitmap |
| TileCache.PutKeepsAll | Joysola.DeepZoom/DeepZoom/MultiScaleImageSpatialItemsSource.cs:188-193 | a new tile in a cache with room forgets nothing |
| TileCache.PutAllWindow | Joysola.DeepZoom/DeepZoom/MultiScaleImageSpatialItemsSource.cs:181-196 | caching new tiles one after another leaves exactly the last 300 of the old queue followed by the new tiles |
| TileCache.DummyIds | Joysola.DeepZoom/DeepZoom/MultiScaleImageSpatialItemsSource.cs:69-75 | the dummy ids are start, start + 500000, ..., all below end, and the next one would reach end: none when start >= end |
| TileCache.MultiScaleImageSpatialItemsSource.constructor | Joysola.DeepZoom/DeepZoom/MultiScaleImageSpatialItemsSource.cs:31-34 | a new source has an empty cache and queue, level 0, no dummy id and no pending fetch |
| TileCache.MultiScaleImageSpatialItemsSource.CacheTile | Joysola.DeepZoom/DeepZoom/MultiScaleImageSpatialItemsSource.cs:181-196 | the dictionary and the queue change as Put says, and the answer is Put's |
| TileCache.MultiScaleImageSpatialItemsSource.SetCurrentLevel | Joysola.DeepZoom/DeepZoom/MultiScaleImageSpatialItemsSource.cs:93-102 | a new level cancels the current token and installs a fresh one; the same level changes nothing |
| TileCache.MultiScaleImageSpatialItemsSource.Item | Joysola.DeepZoom/DeepZoom/MultiScaleImageSpatialItemsSource.cs:105-177 | null for the dummy id just yielded; a cached tile's view model holds its bitmap; a URI tile queues a fetch under the current token; a stream tile is decoded and cached at once; any other source gives null |
| TileCache.MultiScaleImageSpatialItemsSource.StartFetch | Joysola.DeepZoom/DeepZoom/MultiScaleImageSpatialItemsSource.cs:142-149 | a fetch whose token was cancelled never runs; otherwise it starts |
| TileCache.MultiScaleImageSpatialItemsSource.CompleteFetch | Joysola.DeepZoom/DeepZoom/MultiScaleImageSpatialItemsSource.cs:145-157 | a loaded bitmap is cached and shown by the view model; a failed load changes neither |
| TileCache.MultiScaleImageSpatialItemsSource.Query | Joysola.DeepZoom/DeepZoom/MultiScaleImageSpatialItemsSource.cs:54-82 | above level 18 the dummy ids come first and each is the dummy item while it is yielded; the dummy item is then -1 for all visible tile ids |
| Coordinates.CanvasToMsi | Joysola.DeepZoom/DeepZoom.Marks/Tools/CanvasCoordinationExtension.cs:62-69 | the image point is the one and only point that MsiToCanvas sends back to the canvas point |
| Coordinates.MsiRoundTrip | Joysola.DeepZoom/DeepZoom.Marks/Tools/CanvasCoordinationExtension.cs:62-101 | an image point converted to the canvas and back is unchanged |
| Coordinates.CanvasRoundTrip | Joysola.DeepZoom/DeepZoom.Marks/Tools/CanvasCoordinationExtension.cs:62-101 | a canvas point converted to the image and back is unchanged |
| Coordinates.CanvasToMsiRect | Joysola.DeepZoom/DeepZoom.Marks/Tools/CanvasCoordinationExtension.cs:78-86 | the origin moves like a point, the size is only divided, and a positive factor keeps sizes non-negative |
| Coordinates.MsiToCanvasRect | Joysola.DeepZoom/DeepZoom.Marks/Tools/CanvasCoordinationExtension.cs:41-51 | the origin moves like a point, the size is only multiplied, and a non-negative factor keeps sizes non-negative |
| Coordinates.CanvasRectRoundTrip | Joysola.DeepZoom/DeepZoom.Marks/Tools/CanvasCoordinationExtension.cs:41-86 | a canvas rectangle converted to the image and back is unchanged |
| Coordinates.MsiRectRoundTrip | Joysola.DeepZoom/DeepZoom.Marks/Tools/CanvasCoordinationExtension.cs:41-86 | an image rectangle converted to the canvas and back is unchanged |
| Coordinates.MarkCanvasToMsi | Joysola.DeepZoom/DeepZoom.Marks/Tools/CanvasCoordinationExtension.cs:18-25 | the mark overload agrees with the Point overload at the mark's Offset and Scale |
| Coordinates.MarkMsiToCanvas | Joysola.DeepZoom/DeepZoom.Marks/Tools/CanvasCoordinationExtension.cs:32-39 | the mark overload agrees with the Point overload at the mark's Offset and Scale |
| Coordinates.GetRotatePoint | Joysola.DeepZoom/DeepZoom.Marks/Tools/CanvasCoordinationExtension.cs:112-120 | the centre is fixed by every rotation, whatever sin and cos return, and an angle with cosine 1 and sine 0 moves no point |
| Coordinates.RotateKeepsDistance | Joysola.DeepZoom/DeepZoom.Marks/Tools/CanvasCoordinationExtension.cs:112-120 | when cos² + sin² = 1, rotation keeps the distance to the centre |
| Coordinates.RotateBack | Joysola.DeepZoom/DeepZoom.Marks/Tools/CanvasCoordinationExtension.cs:112-120 | rotating by an angle and then by its opposite gives back the start point |
| Marks.CorrectDoubleValue | Joysola.DeepZoom/DeepZoom.Marks/Controls/Base/BaseMark.cs:279-282 | NaN and negative values become 0, other values are kept, and the result is never negative |
| Marks.CorrectNewStart | Joysola.DeepZoom/DeepZoom.Marks/Controls/Base/BaseMark.cs:245-258 | CorrectNewTop and CorrectNewLeft: the start is non-negative; a start that already fits is kept; an overshooting start is pulled back until the far edge meets the parent's; a negative start becomes 0; a mark no larger than the parent ends inside it |
| Marks.CorrectNewExtent | Joysola.DeepZoom/DeepZoom.Marks/Controls/Base/BaseMark.cs:262-275 | CorrectNewWidth and CorrectNewHeight: the extent is non-negative and kept when it fits; an extent reaching past the parent is cut back to end exactly at the parent's edge; a negative one becomes 0 |
| Marks.ResizeFromNear | Joysola.DeepZoom/DeepZoom.Marks/Controls/Base/BaseMark.cs:182-209 | ResizeFromTop and ResizeFromLeft: before the clamp the far edge is fixed; the near edge follows the pointer while allowed, stops exactly 10 before the old far edge when dragged past it, and stops at 0 when dragged out of the parent; the result stays inside the parent and the far edge stays put when it was inside |
| Marks.ResizeFromFar | Joysola.DeepZoom/DeepZoom.Marks/Controls/Base/BaseMark.cs:213-241 | ResizeFromRight and ResizeFromBottom: the far edge follows the pointer while inside, stops exactly at the limit when dragged to or past it, and meets the near edge (extent 0) when dragged over it; the extent is never negative |
| Marks.FarHasNoMinimum | Joysola.DeepZoom/DeepZoom.Marks/Controls/Base/BaseMark.cs:213-241 | dragging the right or bottom edge onto the opposite edge leaves extent 0, which is below the 10-unit minimum of the left and top handles |
| Marks.BottomCanLeaveTallParent | Joysola.DeepZoom/DeepZoom.Marks/Controls/Base/BaseMark.cs:229-241 | in a 400x200 parent, the bottom-centre handle takes a mark at top 100 to height 200, past the parent's bottom |
| Marks.MovedBound | Joysola.DeepZoom/DeepZoom.Marks/Controls/Base/BaseMark.cs:89-111 | a move keeps the size and gives a non-negative origin; the mark follows the pointer while it fits, ends flush with the parent's right or bottom edge when pushed past it, and at 0 when pushed past the left or top edge |
| Marks.ResizedBound | Joysola.DeepZoom/DeepZoom.Marks/Controls/Base/BaseMark.cs:115-176 | each edge rule runs exactly for the handles on that edge, on the sanitized old bound, against the parent's width for the left, right and bottom edges and its height for the top; an axis no rule touches keeps its old values; the result is well formed |
| Marks.HandlesAreExclusive | Joysola.DeepZoom/DeepZoom.Marks/Controls/Base/BaseMark.cs:134-162 | no handle moves both opposite edges, and every handle except the centre moves some edge |
| Marks.TopLeftOvershootExample | Joysola.DeepZoom/DeepZoom.Marks/Controls/Base/BaseMark.cs:115-209 | the top-left corner of a 100x100 mark at the origin dragged by (+500,+500) in a 200x200 parent gives (90,90,10,10) |
| Marks.BottomRightExample | Joysola.DeepZoom/DeepZoom.Marks/Controls/Base/BaseMark.cs:115-176 | (10,10,100,50) resized from BottomRight by (+20,+10) in a 200x200 parent gives (10,10,120,60) |
| Marks.BaseMark.DragElement | Joysola.DeepZoom/DeepZoom.Marks/Controls/Base/BaseMark.cs:89-111 | the mark moves to MovedBound of its target bound; its size and the target are untouched |
| Marks.BaseMark.ResizeElement | Joysola.DeepZoom/DeepZoom.Marks/Controls/Base/BaseMark.cs:115-176 | without a thumb: the empty rectangle and no change; otherwise the mark takes ResizedBound as its size and position |
| Marks.BaseMark.OnDragDelta | Joysola.DeepZoom/DeepZoom.Marks/Controls/Base/BaseMark.cs:385-418 | not editable: handled, nothing changes; no thumb: not handled, nothing changes; otherwise the mark's Canvas position becomes the new bound's origin, the centre handle moves it with its size kept and every other handle also gives it the new bound's size, the "changing" event carries the new bound before the target receives it, and the event is handled |
| DeepZoomMarks.DeepZoomMark.UpdateShape | Joysola.DeepZoom/DeepZoom.Marks/Controls/Base/DeepZoomMark.cs:122-124 | the target bound becomes the stored image rectangle drawn with the current Offset and Scale |
| DeepZoomMarks.DeepZoomMark.OnMSIRectChanged | Joysola.DeepZoom/DeepZoom.Marks/Controls/Base/DeepZoomMark.cs:112-118 | redraws exactly when no drag is being stored |
| DeepZoomMarks.DeepZoomMark.OnOffsetChanged | Joysola.DeepZoom/DeepZoom.Marks/Controls/Base/DeepZoomMark.cs:107 | always redraws |
| DeepZoomMarks.DeepZoomMark.OnScaleChanged | Joysola.DeepZoom/DeepZoom.Marks/Controls/Base/DeepZoomMark.cs:102 | always redraws |
| DeepZoomMarks.DeepZoomMark.SetOffset | Joysola.DeepZoom/DeepZoom.Marks/Controls/Base/DeepZoomMark.cs:38-53 | a new Offset redraws the mark with it; the same value changes nothing |
| DeepZoomMarks.DeepZoomMark.SetScale | Joysola.DeepZoom/DeepZoom.Marks/Controls/Base/DeepZoomMark.cs:57-72 | a new Scale redraws the mark with it; the same value changes nothing |
| DeepZoomMarks.DeepZoomMark.SetMsiRect | Joysola.DeepZoom/DeepZoom.Marks/Controls/Base/DeepZoomMark.cs:76-90 | a new MSIRect is stored and redraws the mark unless a drag is being stored |
| DeepZoomMarks.DeepZoomMark.RaisenDragCompletedEvent | Joysola.DeepZoom/DeepZoom.Marks/Controls/Base/DeepZoomMark.cs:140-146 | MSIRect becomes the dragged bound in image coordinates; the guard is down afterwards; the store does not redraw; drawing the stored rectangle gives back the dragged bound |
| RectangleMarks.CornerRect | Joysola.DeepZoom/DeepZoom.Marks/Controls/RectangleMark.cs:25-28 | the rectangle is well formed, and its sides lie at the two corners' x and y coordinates |
| RectangleMarks.CornerRectSymmetric | Joysola.DeepZoom/DeepZoom.Marks/Controls/RectangleMark.cs:23-29 | swapping the two corners gives the same rectangle |
| RectangleMarks.CornerRectSmallest | Joysola.DeepZoom/DeepZoom.Marks/Controls/RectangleMark.cs:23-29 | both corners lie on the rectangle, and every box holding both corners holds the rectangle |
| RectangleMarks.CornerRectUnique | Joysola.DeepZoom/DeepZoom.Marks/Controls/RectangleMark.cs:25-28 | a well-formed box whose sides lie at the corners' coordinates is CornerRect |
| RectangleMarks.RectangleMark.SetTargetActualBound | Joysola.DeepZoom/DeepZoom.Marks/Controls/RectangleMark.cs:12-17 | hands the bound on; the image-space corners are not written back |
| RectangleMarks.RectangleMark.UpdateShape | Joysola.DeepZoom/DeepZoom.Marks/Controls/RectangleMark.cs:20-31 | the target becomes the rectangle spanned by the two corners converted to the canvas; the corners are untouched |

## Left out

- The quad tree (`PriorityQuadTree`) is a map from item to bounds and priority. The model assumes
  that a query reports every item whose bounds meet the rectangle, and every item with empty bounds.
  The tree's order of answers is unspecified.
- `PrivateSpatialIndex.Optimize` only rebalances the quad tree, which is not modelled. The
  `RealizeOverride` iterator's call to it (ZoomableCanvas.cs:767-770) is left out too.
- The index's answer is enumerated lazily, and the walk is a C# iterator. Both are modelled as
  sequences and a saved walk position. The query runs at the walk's first move, as in the source.
- The non-virtualizing query over the infinite rectangle (ZoomableCanvas.cs:779-782) is not
  modelled. A walk runs only when a realized list exists, and the list is created only for a
  virtualizing items host.
- Canvas.ZoomableCanvas.RealizeOverride: a saved walk is resumed only on the realized list it was
  saved on (`Fits`). An items change between frames restarts the walk in the model; the source
  cannot resume it meaningfully either.
- Container lookup (`ContainerFromIndex`) and the capture and focus tests are a set of protected
  ids. `RealizeItem` and `VirtualizeItem` are recorded as a list of calls.
- Event wiring is not modelled: `InvalidateReality`, `InvalidateExtent`, the scroll-info members,
  render transforms, measure and arrange, and `OnItemsChanged` dispatch. Dependency-property
  registration and routed events are left out as well.
- The helper methods `SpatialIndex.PrivateSpatialIndex.NewItems`, `DetachRange` and `Clear` split
  the loops of `InsertRange`, `RemoveRange` and `Reset`.
- The helper methods `Canvas.ZoomableCanvas.Commit`, `QueryView`, `Canvas.MoveBudget`,
  `ShiftRealizedUp` and `UnlinkRemoved` split `RealizeOverride`, `OnItemsAdded` and
  `OnItemsRemoved`. They are steps of those methods, not separate operations.
- The tile cache is keyed by the tile, not by its string form. `Tile.ToString` names a tile
  uniquely.
- Realization.FindNext: `LinkedList.FindNext(lastNode, value)` is taken to return the first node
  after `lastNode` that holds the value, searching from the head when `lastNode` is null, and null
  when there is none. The file defining it is not part of this model.
- `AtMost` and `AtLeast` are taken as the minimum and the maximum. The file defining them is not
  part of this model.
- The dummy-id loop of `Query` uses unbounded integers. The source's `int` could overflow only past
  2^31 tiles.
- The items source's `InvalidateSource` (MultiScaleImageSpatialItemsSource.cs:36-42) only raises
  events, and its `Extent` (46-52) is the image size. Events are not modelled for this class.
- Background tasks, the cache lock, `ImageLoader` and bitmap decoding are left out. A fetch is
  modelled as two sequential steps, start and complete. Decoding a stream yields an abstract bitmap.
- MultiScaleTileSource is a record of functions: `TileFromIndex`, `GetTileIndex`,
  `GetTileLayers`, `TilesAtLevel`, `VisibleTilesUntilFill` and `ZoomLimitLevel`.
- Coordinates.MsiToCanvas has no contract of its own. Its meaning is carried by
  `Coordinates.CanvasToMsi` and the round-trip lemmas.
- Math.Sin and Math.Cos in `GetRotatePoint` are uninterpreted functions. The rotation lemmas state
  what they need of them.
- Realization.WalkResult: the closed form of the list, the RealizeItem and VirtualizeItem calls and
  the yield count is proved only for a realized list and a query without repeated ids. With repeats
  (after `InsertRange`, which does not renumber, or when dummy ids coincide with tile ids) the walk
  is still proved to end with the query followed by protected ids (`Realization.WalkPrefix`), to be
  quiet the second time (`Realization.SecondWalkIsQuiet`) and to finish within the bounds of
  `Canvas.FinishedWithinBudget`; the exact calls are not stated for that case.
- Coordinates are real numbers: IEEE rounding, overflow to infinity and division by a zero scale are
  not modelled. Conversions that divide require a non-zero factor.
- DeepZoomMarks.DeepZoomMark.SetMsiRect and the mark's `Valid` exclude an `MSIRect` equal to
  `Rect.Empty`; in the source converting it throws in the `Width` setter (CanvasCoordinationExtension.cs:49).
  Coordinates.CanvasToMsiRect and Coordinates.MsiToCanvasRect give a negative width or height for a
  negative factor, where the WPF `Rect` setters throw (CanvasCoordinationExtension.cs:48-49 and
  83-84); that throw is not modelled.
- Marks.BaseMark.DragElement, Marks.BaseMark.ResizeElement and Marks.BaseMark.OnDragDelta require
  the target bound to be a box. With `Rect.Empty` the source's `DragElement` (and so a centre-handle
  `OnDragDelta`) throws: it assigns the empty rectangle's negative-infinite width to a new `Rect`
  (BaseMark.cs:104-110). `ResizeElement` computes through, because `CorrectDoubleValue` turns the
  infinite sizes into 0. Neither path is modelled.
- A missing `DragParent` (a null reference in the source) is not modelled. The parent's actual
  size is a field.
- `OnDragCompleted` (BaseMark.cs:420-433) is not modelled. The drag-completed path is modelled from
  DeepZoomMark's `RaisenDragCompletedEvent`, which receives the bound.
- DeepZoomMarks.DeepZoomMark.RaisenDragCompletedEvent requires a non-zero Scale, because the
  conversion divides by it.
- WPF runs a property-change callback only when the value changes. The `Set*` methods model that.
  The commented-out dispatcher code in `UpdateShape` is not modelled.
- RectangleMark's base `UpdateShape` is the empty one of `Controls/Base/ShapeMark.cs`.
  `Controls/ShapeMark.cs` is not part of this model. The mark's Offset and Scale are inputs.
- `MainWindow.xaml.cs`, `TestTileSource.cs` and `DragChangedEventArgs.cs` are not part of this
  model.

# Tiled fractal viewer: rectangle subdivision and viewport zoom

This project models two pieces of a small pygame fractal viewer.

The first is its geometry module, `graphicsmath/gmath.py`:
- the ray-casting point-in-polygon test;
- the world-space rectangle `square`, with its corners, pixel size and parent;
- the two generators that cut a square into `val` vertical strips (`sq // val`) or `val` horizontal bands (`sq / val`).

These generators produce the tile grid.

The second is the viewport in `view.py`:
- the initial drag offset `c` and world range `s`;
- the `zoom` rule that rescales `s` about its centre;
- the key dispatch of the main loop.

Floating-point numbers are modelled as Dafny `real`s, so every property is exact.

Files:
- `gmath.dfy`, module `Geometry`. `PointInsidePolygon` is a method with the source's loop. Its result is tied to `InsidePolygon`, the parity of `ToggleCount`. `Square` is a datatype, because nothing in the core mutates a square. `FloorDivide` and `TrueDivide` are the generators run to exhaustion: each is a loop that fills a sequence. `Strip`, `Band` and `Cut` state what the i-th yielded square is. Lemmas prove that the pieces partition the parent.
- `view.dfy`, module `Viewer`. The class `View` has the fields the source keeps (`width`, `height`, `fps`, `c`, `s`). Its methods are `Zoom` and `Run`, and `Run` dispatches through `Zoom` as the source does. The event queue is replaced by a parameter: a sequence of event batches, one per frame. `Dispatch`, `HandleBatch` and `RunFrames` specify the loop.

Two facts about the code are worth stating up front:
- Zoom step. One zoom step moves each end of an interval by a tenth of its width (`* 0.2`, then `/ 2`). The width therefore becomes 0.8 or 1.2 times what it was. Zooming in and then out leaves 0.96 of the width and does not restore the range (`ZoomInOutShrinks`).
- Pixel widths. Every strip gets pixel width `w // val`, and every band gets height `h // val`. The last piece does not absorb the remainder: the pieces together cover `val * (w // val)` columns, which can be up to `val - 1` fewer than `w` (`PixelSizesFollowFloorDivision`).

The datatypes `Geometry.Vec` (`vec`, graphicsmath/gmath.py:4-38) and `Geometry.Square` (the fields set by `square.__init__`, graphicsmath/gmath.py:61-68) carry no contract of their own; `DefaultSquare` and `Size` below state what `__init__` and `size()` give.

## Model

| member | source | states |
|---|---|---|
| `Geometry.Min` | graphicsmath/gmath.py:50 | `min(a, b)` is a lower bound of both arguments and equals one of them |
| `Geometry.Max` | graphicsmath/gmath.py:51-52 | `max(a, b)` is an upper bound of both arguments and equals one of them |
| `Geometry.XIntersect` | graphicsmath/gmath.py:53-54 | `xinters` is defined only for a sloped edge, and the point (xinters, y) lies on the line through the edge's two vertices |
| `Geometry.PointInsidePolygon` | graphicsmath/gmath.py:41-58 | the loop returns True exactly when the n + 1 vertex pairs toggle an odd number of times; the division in the loop body is never by zero, because its horizontal-edge branch is unreachable |
| `Geometry.VertexPairsCloseThePolygon` | graphicsmath/gmath.py:47-57 | the loop first looks at the degenerate pair (poly[0], poly[0]), then at every edge (poly[i-1], poly[i]) in order, and last at the closing edge (poly[n-1], poly[0]) |
| `Geometry.ToggleNeedsSlopedEdge` | graphicsmath/gmath.py:50-56 | a pair toggles only if its two y coordinates differ, so a degenerate or horizontal edge never toggles |
| `Geometry.VertexPairInPolygon` | graphicsmath/gmath.py:47-49 | both points of every visited pair are vertices of the polygon |
| `Geometry.NoTogglesOutsideBoundingBox` | graphicsmath/gmath.py:46-57 | if y is at or below every vertex, above every vertex, or x is right of every vertex, no iteration toggles `inside` |
| `Geometry.OutsideBoundingBoxIsOutside` | graphicsmath/gmath.py:46-58 | in those three cases the test returns False |
| `Geometry.DefaultSquare` | graphicsmath/gmath.py:62-68 | `square()` has corners (-1, 1) and (1, -1), pixel size (1, 1) and no parent |
| `Geometry.Size` | graphicsmath/gmath.py:98-99 | `size()` is the pair (w, h): with the corners and the parent it determines the square |
| `Geometry.Points` | graphicsmath/gmath.py:78-83 | `points` gives four points, each built from one x of a corner and one y of a corner |
| `Geometry.XIntersectOnEdge` | graphicsmath/gmath.py:53-55 | for y within an edge's y range, `xinters` lies between the edge's two x coordinates |
| `Geometry.BowTieWithinBox` | graphicsmath/gmath.py:79-86 | the polygon test over the corners in the order of `points` holds only for points of the rectangle's half-open box |
| `Geometry.ContainsAsWritten` | graphicsmath/gmath.py:85-86 | `__contains__` as written: the polygon test over `points`, which never reports a point outside the rectangle |
| `Geometry.ContainsAsWrittenMissesCentre` | graphicsmath/gmath.py:79-86 | with the corners in the order of `points`, the default square contains neither its centre (0, 0) nor the interior point (0.5, 0), which lies off both diagonals |
| `Geometry.CyclicPoints` | graphicsmath/gmath.py:79-83 | the corners in cyclic order: each pair of consecutive corners shares an x or a y |
| `Geometry.PointsSwapsLastTwoCorners` | graphicsmath/gmath.py:79-83 | `points` is the walk around the rectangle with its last two corners swapped |
| `Geometry.ContainsIsInBox` | graphicsmath/gmath.py:85-86 | with cyclic corners, `__contains__` holds exactly for points strictly right of the left edge and at most the right edge, and strictly above the bottom edge and at most the top edge |
| `Geometry.ContainsFindsCentre` | graphicsmath/gmath.py:85-86 | the corrected test finds the centre of the default square |
| `Geometry.FloorDiv` | graphicsmath/gmath.py:110 | `w // val` for positive `val` is the floor of w / val |
| `Geometry.FloorDivide` | graphicsmath/gmath.py:103-110 | `sq // val` yields val strips for val > 0 and none otherwise, in increasing i. Each strip keeps the parent's top and bottom y, has size (w // val, h) and parent `sq`. Each strip's right x is the next strip's left x. The first strip starts at the parent's left x and the last ends at its right x |
| `Geometry.TrueDivide` | graphicsmath/gmath.py:112-119 | `sq / val` yields val bands for val > 0 and none otherwise, in increasing i. Each band keeps the parent's left and right x, has size (w, h // val) and parent `sq`. Each band's bottom y is the next band's top y. The first band starts at the parent's top y and the last ends at its bottom y |
| `Geometry.CutEnds` | graphicsmath/gmath.py:108-109 | the cut points `x0 + (x1 - x0) * i / val` start at x0 for i = 0 and end at x1 for i = val |
| `Geometry.CutIncreasing` | graphicsmath/gmath.py:108-109 | for x0 < x1 the cut points strictly increase with i |
| `Geometry.CutReversed` | graphicsmath/gmath.py:117-118 | the cut points from y0 to y1 are those from y1 to y0 in reverse order |
| `Geometry.CutCoversUpTo` | graphicsmath/gmath.py:108-109 | every point in (x0, cut k] lies in one of the first k cut intervals |
| `Geometry.CutDisjoint` | graphicsmath/gmath.py:108-109 | for x0 < x1 no point lies in two different cut intervals |
| `Geometry.CutPartition` | graphicsmath/gmath.py:107-109 | for x0 < x1 the val cut intervals partition (x0, x1]: each point lies in exactly one |
| `Geometry.CutWithinEnds` | graphicsmath/gmath.py:107-109 | each of the val cut intervals lies within (x0, x1] |
| `Geometry.StripContains` | graphicsmath/gmath.py:105-110 | a point is in strip i exactly when its y is in the parent's y range and its x is in the i-th cut interval |
| `Geometry.BandContains` | graphicsmath/gmath.py:114-119 | a point is in band i exactly when its x is in the parent's x range and its y is in the matching cut interval of the y range |
| `Geometry.StripsPartition` | graphicsmath/gmath.py:103-110 | for a rectangle with left x below right x, a point is in the rectangle exactly when it is in one of its val strips, and no point is in two strips |
| `Geometry.BandsPartition` | graphicsmath/gmath.py:112-119 | for a rectangle with top y above bottom y, a point is in the rectangle exactly when it is in one of its val bands, and no point is in two bands |
| `Geometry.PixelSizesFollowFloorDivision` | graphicsmath/gmath.py:103-119 | strips keep the height and bands keep the width. val strips of width w // val cover more than w - val columns and at most w; the same holds for the bands' heights |
| `Viewer.View.constructor` | view.py:23-36 | a new view starts with drag offset c = (0, 0) and range s = ((-1, 1), (-1, 1)) |
| `Viewer.ZoomInterval` | view.py:38-47 | on one axis, "in" makes the width 0.8 times the old width and "out" makes it 1.2 times; any other argument leaves the interval unchanged; the midpoint never moves |
| `Viewer.Zoomed` | view.py:38-47 | the same for both axes of `s` |
| `Viewer.View.Zoom` | view.py:38-47 | `zoom(f)`, with `f` defaulting to "in", sets `s` to the zoomed range and leaves `c` unchanged |
| `Viewer.ZoomInKeepsValid` | view.py:40-44 | zooming in on an interval with lo < hi moves both ends strictly inwards, so lo < hi still holds |
| `Viewer.ZoomInOutShrinks` | view.py:39-47 | in-then-out and out-then-in both leave 0.96 of each width; in-then-out gives back the original range exactly when both widths are zero |
| `Viewer.Dispatch` | view.py:52-61 | QUIT and ESC clear `running` and keep `s`; UP zooms in and DOWN zooms out without touching `running`; every other event changes nothing |
| `Viewer.HandleBatch` | view.py:52-61 | the `for event` loop over one batch: no event sets `running` back to true |
| `Viewer.RunFrames` | view.py:50-61 | the `while running` loop over the frames: `running` never comes back once false, and a stopped loop changes nothing |
| `Viewer.BatchRangeIgnoresRunning` | view.py:52-61 | the range a batch leaves behind does not depend on `running`, because every event of the batch is handled |
| `Viewer.StopInBatchStops` | view.py:51-61 | a QUIT or ESC anywhere in a frame's batch leaves `running` false after that batch, whatever follows it |
| `Viewer.BatchWithoutStopKeepsRunning` | view.py:51-61 | a batch without QUIT or ESC leaves `running` as it was |
| `Viewer.StoppedStaysStopped` | view.py:51 | once `running` is false, no later frame changes the state |
| `Viewer.StopEndsRun` | view.py:50-61 | a stop request in frame k ends the run with the state after frame k |
| `Viewer.EventsAfterQuitStillHandled` | view.py:52-59 | an UP that follows a QUIT in the same batch still zooms in |
| `Viewer.View.Run` | view.py:49-61 | the loop handles batches while `running` holds. It stops early only after a batch that cleared `running`. It ends with `s` as `RunFrames` gives it and leaves `c` unchanged |

## Left out

- `vec`: only its role as a record of two or three coordinates is modelled. Its numpy storage, its in-place setters and its string forms are not.
- `square.__init__` defaults: `Square` is a value. Python shares its default corner vectors between squares built without arguments. That aliasing only matters if a vector is mutated, and nothing in the core mutates one.
- `square.fn` and `square.surface`: the pixel function is only passed on to children, and the surface is only set to None, so neither is a field of `Square`.
- `square.__str__`: float formatting and rounding.
- Generators: the lazy, one-at-a-time behaviour of `__floordiv__`/`__truediv__` is modelled as the finished list of everything they yield.
- Generators: a corner that is not a two-component vector makes the source's unpacking fail. `FloorDivide` and `TrueDivide` require two-component corners instead.
- `point_inside_polygon`: an empty polygon makes the source fail at `poly[0]`. `PointInsidePolygon` requires a non-empty polygon instead.
- IEEE rounding: every result is exact over the reals, so a property such as contiguity of strip edges holds exactly in the model, even where floating point might break it.
- `Viewer.View.constructor`: `coords` subclasses `tuple` and defines `__init__` but no `__new__`, so `coords(0, 0)` at view.py:35-36 passes two arguments to `tuple.__new__` and raises TypeError. The model reads `coords(a, b)` as the pair (a, b) and starts the view normally.
- `Viewer.View.Zoom`: for the same reason, `coords(...)` at view.py:43-44 and 46-47 raises TypeError for "in" and "out". The model reads it as the pair and updates `s`.
- `view.__init__` and `run`: the pygame setup, the display, the clock and `playtime`, the FPS and text overlays (`text_topleft`, `text_botright`) and `coords.__str__` are I/O. The event queue is a parameter.
- `Viewer.View.Run`: the source waits for more events forever while `running` holds. The model stops when the given batches run out.
- `gl.py`, `fractals/mandelbrot.py` and `mandel.py` are not part of this model. They hold shader and texture glue, and floating-point escape-time iteration through numpy and image libraries.

## Findings

| source | as written | input that shows it | evidently intended | confidence | as-written member | corrected member |
|---|---|---|---|---|---|---|
| graphicsmath/gmath.py:79-86 | `points` lists the corners as top-left, top-right, bottom-left, bottom-right. `__contains__` passes them to the polygon test, which walks them as a bow tie with two diagonal edges. | `(0, 0) in square()` gives False: both diagonals toggle, leaving an even count. `(0.5, 0) in square()`, a point off both diagonals, gives False as well: neither diagonal toggles. | corners walked around the rectangle, so that `__contains__` holds for the rectangle's points | high; not executed | `Geometry.ContainsAsWrittenMissesCentre` | `Geometry.ContainsIsInBox` |

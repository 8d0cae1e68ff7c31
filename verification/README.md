# Raster algorithms of GDAL 1.10.1

A Dafny model of the algorithms in the `alg` directory of GDAL 1.10.1, and proofs of what they promise. Rasters are
read and written one line at a time, working buffers are arrays that are overwritten in place, and objects whose fields
the algorithms update are classes; every such method is proved against a specification in terms of the raster, the
points or the run as a whole. Integers are unbounded except where the source saturates them, and floating point numbers
are real numbers.

| files | what they are about |
|---|---|
| `Connectivity`, `Forest`, `RasterPolygonEnumerator` | Polygons of a raster: ids are handed out line by line, merged in a parent map and flattened. |
| `RasterBand`, `SieveFilter` | Small polygons take the value of their largest neighbour, in three passes over the raster. |
| `RPolygon`, `Polygonize` | Edges between polygons are collected in strings, spliced into rings and written while the raster is still being read. |
| `MedianCut` | A colour table for an image, from boxes in colour space that are split at the median. |
| `LinearSystems`, `LeastSquares`, `Crs` | Polynomials through ground control points: elimination in place, normal equations and best fits. |
| `GridThreads` | The threads of a gridding: strided rows, a shared counter, a stop flag, a mutex and a condition variable. |
| `Proximity`, `ProximitySpread`, `ProximityExact` | Distances to near targets, in two passes with two sweeps over every line, and when they are those to the nearest ones. |
| `BackMap` | Filling holes of a geolocation back map in place. |
| `ContourTrace`, `ContourItem`, `ContourLevel`, `Contour` | Contour levels traced in the pixels; lines put together from the segments, merged and written. |
| `ApproxTransform` | Transforming a line of points by interpolation where that is accurate enough. |
| `IntegralImage` | Sums over rectangles from a summed-area table. |

Some promises turned out not to hold as they are documented or meant, and the model follows the code:

- The search for a contour line says that it checks all lines with the same tail X. It finds a line only if all lines
  before it in the list are near the same X (`ContourLevels.SearchMisses`); in a list in order that is so exactly if the
  first tail is near in X and the very X occurs (`ContourLevels.FoundInOrder`). A new line is put in order of the level
  instead of its tail (`ContourLevels.InsertOrder` says when the list stays in order, `ContourLevels.InsertMisplaces`
  that it may not). Segments are conserved nevertheless.
- Segments say which of their sides is high. In a saddle the first of the two segments may say the wrong one
  (`ContourTraces.SaddleSides` says exactly when). Everywhere else it is the right one, also where a level goes through
  a corner (`ContourTraces.PixelSidesAreRight`). With a negative interval there are no contours
  (`ContourTraces.NegativeIntervalIsEmpty`).
- The sum over a rectangle that begins beyond the last row or column of an image is taken from the first row or column
  on (`IntegralImages.ClippedExactlyWithin` says for which rectangles the sum is right for every image).
- The proximity of a pixel need not be the Euclidean distance to the nearest target (`ProximityExact.NotEuclidean`). It
  is so in all rasters of a size exactly if that has at most three lines or columns, or the targets are at most two
  (`ProximityExact.AlwaysExactExactlyWhen`), and for a single pixel whenever the nearest target has not two rivals
  (`ProximityExact.WrongNeedsTwoRivals`).
- The main thread of a gridding joins threads that it has not created if something fails before the last one is created
  (`GridThreads.AstrayBySchedule`). That can happen exactly if there are at least two (`GridThreads.AstrayIsPossible`,
  with a run in `GridThreads.GoesAstray`).
- Adjacent pixels with equal values need not be in one polygon: the floating point enumerator with 8-connectedness does
  not test all diagonals, and some with a stricter equality. `Connectivity.Missed` are those left out;
  `RasterPolygonEnumerator.AdjacentTogetherExactlyIf` says for which equalities none is lost, which holds for the
  integer enumerator and for 4-connectedness.

Some operations are split into several methods, and some specifications are recursive functions over the order in which
the source loops run. The pixel equalities are parameters of the polygon enumerator; the integer and the floating
point enumerator of the source are two uses of one class.

## Model

| member | source | states |
|---|---|---|
| RasterPolygonEnumerator.SamePolygon | worker/ufcg-default/gdal-1.10.1/alg/gdalrasterpolygonenumerator.cpp:85-246 | after all lines and CompleteMerges two pixels have the same final id exactly if a path of linked pixels joins them, for both kinds of connectedness and both kinds of pixel equality, although parents are compared instead of roots; linked are adjacent equal pixels, but for the diagonals that the floating point enumerator misses |
| RasterPolygonEnumerator.DiagonalImplied | worker/ufcg-default/gdal-1.10.1/alg/gdalrasterpolygonenumerator.cpp:195-214 | where an id is taken over from above, the linked diagonal neighbours, which are not compared, are in the same tree anyway |
| RasterPolygonEnumerator.Settle | worker/ufcg-default/gdal-1.10.1/alg/gdalrasterpolygonenumerator.cpp:175-246 | once a pixel is in one tree with all its linked neighbours before it, all connected pixels so far are in one tree |
| RasterPolygonEnumerator.MergeKeepsLabels | worker/ufcg-default/gdal-1.10.1/alg/gdalrasterpolygonenumerator.cpp:85-98 | linking two roots that belong to connected pixels keeps every tree inside one polygon |
| RasterPolygonEnumerator.CopyId | worker/ufcg-default/gdal-1.10.1/alg/gdalrasterpolygonenumerator.cpp:193-241 | an id taken over from a linked pixel keeps the labelling sound |
| RasterPolygonEnumerator.FreshId | worker/ufcg-default/gdal-1.10.1/alg/gdalrasterpolygonenumerator.cpp:107-126 | a new id for a pixel without linked neighbours before it keeps the labelling sound |
| RasterPolygonEnumerator.RawIdsPrefix | worker/ufcg-default/gdal-1.10.1/alg/gdalrasterpolygonenumerator.cpp:162-246 | the ids of the first lines are those of a raster that has only these lines: no later line changes them |
| RasterPolygonEnumerator.Replay | worker/ufcg-default/gdal-1.10.1/alg/gdalrasterpolygonenumerator.cpp:162-246 | two enumerators that have processed the same lines, whatever was merged in between, have given out the same raw ids |
| RasterPolygonEnumerator.FinalIdWitness | worker/ufcg-default/gdal-1.10.1/alg/gdalrasterpolygonenumerator.cpp:135-155 | every id was given out for a pixel that has the value recorded for it and none of whose neighbours before it is linked to it |
| RasterPolygonEnumerator.SameRootsKeepLabels | worker/ufcg-default/gdal-1.10.1/alg/gdalrasterpolygonenumerator.cpp:135-155 | flattening the map leaves every pixel in its tree |
| RasterPolygonEnumerator.ShortcutRoots | worker/ufcg-default/gdal-1.10.1/alg/gdalrasterpolygonenumerator.cpp:143-146 | pointing an id at its grandparent changes no root |
| RasterPolygonEnumerator.GDALRasterPolygonEnumerator.MergePolygon | worker/ufcg-default/gdal-1.10.1/alg/gdalrasterpolygonenumerator.cpp:85-98 | chasing parents ends, because the map is a forest in every state, and the source root then hangs below the destination root; nothing else changes |
| RasterPolygonEnumerator.GDALRasterPolygonEnumerator.NewPolygon | worker/ufcg-default/gdal-1.10.1/alg/gdalrasterpolygonenumerator.cpp:107-126 | the next id, its own root, with its value |
| RasterPolygonEnumerator.GDALRasterPolygonEnumerator.ProcessPixel | worker/ufcg-default/gdal-1.10.1/alg/gdalrasterpolygonenumerator.cpp:185-246 | one pixel of a line: the id it takes over or is given, and merges that leave it in one tree with all its linked neighbours before it |
| RasterPolygonEnumerator.GDALRasterPolygonEnumerator.ProcessLine | worker/ufcg-default/gdal-1.10.1/alg/gdalrasterpolygonenumerator.cpp:162-246 | the ids of a line are those determined by the values alone, and the labelling invariant holds for one line more |
| RasterPolygonEnumerator.GDALRasterPolygonEnumerator.CompleteMerges | worker/ufcg-default/gdal-1.10.1/alg/gdalrasterpolygonenumerator.cpp:135-155 | afterwards the map is flat, so that map[map[k]] is map[k], with every pixel in the tree it was in |
| RasterPolygonEnumerator.GDALRasterPolygonEnumerator.Clear | worker/ufcg-default/gdal-1.10.1/alg/gdalrasterpolygonenumerator.cpp:66-76 | an enumerator that is as good as new |
| Forest.LinkKeepsForest | worker/ufcg-default/gdal-1.10.1/alg/gdalrasterpolygonenumerator.cpp:85-98 | linking a root below another root leaves a forest |
| Forest.LinkRoot | worker/ufcg-default/gdal-1.10.1/alg/gdalrasterpolygonenumerator.cpp:85-98 | after linking, exactly the ids below the one root change their root, to the other one |
| Forest.ShortcutRoot | worker/ufcg-default/gdal-1.10.1/alg/gdalrasterpolygonenumerator.cpp:143-146 | shortcutting an id leaves all roots alone |
| Connectivity.ConnectedTransitive | worker/ufcg-default/gdal-1.10.1/alg/gdalrasterpolygonenumerator.cpp:162-246 | being joined by paths is transitive |
| Connectivity.ConnectedSymmetric | worker/ufcg-default/gdal-1.10.1/alg/gdalrasterpolygonenumerator.cpp:162-246 | being joined by paths is symmetric |
| Connectivity.ConnectedCrossesEveryLine | worker/ufcg-default/gdal-1.10.1/alg/fpolygonize.cpp:749-761 | connected pixels of two lines are connected to a pixel of every line between: the lines of a polygon are an interval |
| RasterPolygonEnumerator.AdjacentTogetherExactlyIf | worker/ufcg-default/gdal-1.10.1/alg/gdalrasterfpolygonenumerator.cpp:195-246 | adjacent equal pixels are in one polygon of every raster if and only if there is 4-connectedness, or the equality is transitive and the one that the diagonals are tested with is no stricter, or all values are equal; so not with the 8-connectedness of the floating point enumerator |
| RasterPolygonEnumerator.DiagonalNotTested | worker/ufcg-default/gdal-1.10.1/alg/gdalrasterfpolygonenumerator.cpp:197-227 | the raster in which a diagonal is not tested, and lost, if the equality is not transitive |
| RasterPolygonEnumerator.DiagonalNotSame | worker/ufcg-default/gdal-1.10.1/alg/gdalrasterfpolygonenumerator.cpp:206-222 | the raster in which a diagonal is tested with the strict equality, and lost |
| RasterPolygonEnumerator.FinalIdsAre | worker/ufcg-default/gdal-1.10.1/alg/gdalrasterpolygonenumerator.cpp:135-246 | after CompleteMerges the map is a function of the raster alone: what is merged into what, in which order, is determined by the values |
| RasterPolygonEnumerator.RootPixelIsUnique | worker/ufcg-default/gdal-1.10.1/alg/gdalrasterpolygonenumerator.cpp:107-155 | a polygon has one pixel only for which its final id was given out |
| RasterPolygonEnumerator.StartsAreDistinct | worker/ufcg-default/gdal-1.10.1/alg/gdalrasterpolygonenumerator.cpp:107-126 | no id is given out for two pixels |
| RasterPolygonEnumerator.NextLineIds | worker/ufcg-default/gdal-1.10.1/alg/gdalrasterfpolygonenumerator.cpp:158-242 | one more line of a raster, with either kind of connectedness, for any pixel equality that is reflexive and symmetric and any stricter symmetric one for the diagonals |
| RasterPolygonEnumerator.ReplayLine | worker/ufcg-default/gdal-1.10.1/alg/gdalsievefilter.cpp:351-358 | a second enumerator gives a line the ids that the first one gave it |
| RasterBands.GPMaskImageData | worker/ufcg-default/gdal-1.10.1/alg/gdalsievefilter.cpp:66-86 | masked-out pixels become nodata and the others stay |
| SieveFilter.GDALSieveFilter | worker/ufcg-default/gdal-1.10.1/alg/gdalsievefilter.cpp:181-575 | the complete result: a polygon is rewritten exactly if it is not nodata, smaller than the threshold and borders on a valid polygon that is not; it takes the value of the first of its largest neighbours in scan order, and every other pixel keeps its source value, whichever of the three bands are one and the same |
| SieveFilter.SieveIsUnique | worker/ufcg-default/gdal-1.10.1/alg/gdalsievefilter.cpp:489-553 | the promise above leaves one result only, so sieving a band into itself gives what sieving into another band gives |
| SieveFilter.TakesLargestUnlessHuge | worker/ufcg-default/gdal-1.10.1/alg/gdalsievefilter.cpp:301-315 | for every raster: a polygon that is sieved away takes the value of a neighbour than which no neighbour has more pixels, or of one with at least 2147483647 pixels |
| SieveFilter.SieveTakesLargest | worker/ufcg-default/gdal-1.10.1/alg/gdalsievefilter.cpp:434-478 | in a raster of at most 2147483647 pixels it takes the value of a neighbour than which none is larger |
| SieveFilter.NodataStays | worker/ufcg-default/gdal-1.10.1/alg/gdalsievefilter.cpp:438-446 | pixels with the value -51502112, and polygons that border on nothing else, are never rewritten |
| SieveFilter.CountLine | worker/ufcg-default/gdal-1.10.1/alg/gdalsievefilter.cpp:258-265 | sizes of fragments grow by the pixels of a line, up to 2147483647 |
| SieveFilter.FirstPass | worker/ufcg-default/gdal-1.10.1/alg/gdalsievefilter.cpp:229-288 | the labelled raster and the saturated size of every fragment |
| SieveFilter.PushSizes | worker/ufcg-default/gdal-1.10.1/alg/gdalsievefilter.cpp:301-315 | the size at a final id is the number of pixels of its polygon, up to 2147483647 |
| SieveFilter.GatherStep | worker/ufcg-default/gdal-1.10.1/alg/gdalsievefilter.cpp:301-315 | pushing one fragment adds its pixels to its final id and to no other |
| SieveFilter.SizeIsPolygonSize | worker/ufcg-default/gdal-1.10.1/alg/gdalsievefilter.cpp:297-315 | sizes of final ids are sizes of sets of connected pixels |
| SieveFilter.CompareNeighbour | worker/ufcg-default/gdal-1.10.1/alg/gdalsievefilter.cpp:102-129 | each of two valid polygons becomes the neighbour of the other if that has none or a smaller one, so that it keeps a largest of all it was compared with |
| SieveFilter.SecondPass | worker/ufcg-default/gdal-1.10.1/alg/gdalsievefilter.cpp:333-418 | all pairs of adjacent pixels are compared, in scan order, and nothing else |
| SieveFilter.BorderWasSeen | worker/ufcg-default/gdal-1.10.1/alg/gdalsievefilter.cpp:364-399 | every bordering polygon has been compared, though a pixel is only compared with those before it |
| SieveFilter.SeenIsBorder | worker/ufcg-default/gdal-1.10.1/alg/gdalsievefilter.cpp:364-399 | everything that has been compared borders |
| SieveFilter.Threshold | worker/ufcg-default/gdal-1.10.1/alg/gdalsievefilter.cpp:434-478 | the neighbour is kept exactly for polygons below the threshold with a neighbour at or above it |
| SieveFilter.TargetIsLargest | worker/ufcg-default/gdal-1.10.1/alg/gdalsievefilter.cpp:434-478 | a polygon that keeps its neighbour is to be sieved away, and that neighbour is a largest one at or above the threshold |
| SieveFilter.SievedHasTarget | worker/ufcg-default/gdal-1.10.1/alg/gdalsievefilter.cpp:434-478 | a polygon that is to be sieved away keeps a neighbour |
| SieveFilter.FoundIsBig | worker/ufcg-default/gdal-1.10.1/alg/gdalsievefilter.cpp:364-399 | the neighbour that the comparisons end up with is the first largest one offered in scan order |
| SieveFilter.ChosenTakesOver | worker/ufcg-default/gdal-1.10.1/alg/gdalsievefilter.cpp:434-478 | the neighbour whose value is taken is that first largest one |
| SieveFilter.RewrittenIsSieved | worker/ufcg-default/gdal-1.10.1/alg/gdalsievefilter.cpp:525-535 | lines rewritten by final ids are what is promised in terms of polygons |
| SieveFilter.ThirdPass | worker/ufcg-default/gdal-1.10.1/alg/gdalsievefilter.cpp:489-559 | every line is rewritten from its source values before any of its pixels is overwritten |
| RPolygons.RPolygonF.AddSegment | worker/ufcg-default/gdal-1.10.1/alg/fpolygonize.cpp:238-305 | the strings of a polygon have every unit edge as often as before, and the new one once more; if no point in any string went straight on, none does afterwards; and if edges come line by line, strings keep ends that are joined straight only beside a rising edge |
| RPolygons.ExtendString | worker/ufcg-default/gdal-1.10.1/alg/fpolygonize.cpp:262-287 | a string is lengthened by one unit step, and where that goes straight on its last point moves instead of a new one being added |
| RPolygons.ProlongKeepsDrawn | worker/ufcg-default/gdal-1.10.1/alg/fpolygonize.cpp:238-287 | a string that is lengthened, at either end of the new edge, leaves all strings with corners only, started to the right or downwards, never ending on an edge from below, and ending on one from the right only beside a rising edge |
| RPolygons.AppendKeepsDrawn | worker/ufcg-default/gdal-1.10.1/alg/fpolygonize.cpp:289-304 | so does a new string, which is started only where no string ends |
| RPolygons.NoStartAhead | worker/ufcg-default/gdal-1.10.1/alg/fpolygonize.cpp:238-305 | with edges coming line by line no string starts where the next edge ends |
| RPolygons.DrawnIsTidy | worker/ufcg-default/gdal-1.10.1/alg/fpolygonize.cpp:238-305 | of such strings no two ends at a point lie opposite, but to the left and right of a point beside which an edge rises |
| RPolygons.SpliceKeepsTidy | worker/ufcg-default/gdal-1.10.1/alg/fpolygonize.cpp:203-232 | joining two strings leaves straight points only beside rising edges |
| RPolygons.TidyRings | worker/ufcg-default/gdal-1.10.1/alg/fpolygonize.cpp:141-197 | around a whole ring, its beginning included, a point is straight only between horizontal segments and beside a rising edge |
| RPolygons.StaysApart | worker/ufcg-default/gdal-1.10.1/alg/fpolygonize.cpp:152-194 | a string that is done stays apart from the ends of all that follow it |
| RPolygons.PopCollinear | worker/ufcg-default/gdal-1.10.1/alg/fpolygonize.cpp:273-284 | dropping the point between two collinear segments of a string loses no unit edge |
| RPolygons.ExtendSegment | worker/ufcg-default/gdal-1.10.1/alg/fpolygonize.cpp:273-287 | a lengthened segment covers its old unit edges and the new one |
| RPolygons.RPolygonF.Merge | worker/ufcg-default/gdal-1.10.1/alg/fpolygonize.cpp:203-232 | a string is appended in the given direction and its place is taken by the last one; every edge occurs as often as before |
| RPolygons.JoinCount | worker/ufcg-default/gdal-1.10.1/alg/fpolygonize.cpp:210-225 | strings joined at a common point have the edges of both |
| RPolygons.ReversedCount | worker/ufcg-default/gdal-1.10.1/alg/fpolygonize.cpp:215-219 | a reversed string has the same edges |
| RPolygons.SplicedCount | worker/ufcg-default/gdal-1.10.1/alg/fpolygonize.cpp:227-231 | moving the last string into the gap keeps all others |
| RPolygons.StringParity | worker/ufcg-default/gdal-1.10.1/alg/fpolygonize.cpp:141-197 | a string gives odd degree to its two ends, unless they are one point, and even degree to all other points |
| RPolygons.EndsParity | worker/ufcg-default/gdal-1.10.1/alg/fpolygonize.cpp:141-197 | the parity of a point among all edges is that of the string ends at it |
| RPolygons.StuckIsClosed | worker/ufcg-default/gdal-1.10.1/alg/fpolygonize.cpp:170-194 | with even degrees everywhere, a string to which no later string can be appended, all earlier ones being closed, is closed |
| RPolygons.RPolygonF.CloseBase | worker/ufcg-default/gdal-1.10.1/alg/fpolygonize.cpp:152-194 | merging into one string goes on until it is closed and no later string begins or ends where it does, although strings move while they are scanned |
| RPolygons.RPolygonF.Coalesce | worker/ufcg-default/gdal-1.10.1/alg/fpolygonize.cpp:141-197 | with even degrees everywhere it ends with closed strings only, no two of which begin at the same point, with every edge as often as before; straight points are still found only beside rising edges |
| Polygonize.AddEdges | worker/ufcg-default/gdal-1.10.1/alg/fpolygonize.cpp:322-375 | the edges above and to the right of a pixel go to the polygons on both sides of them, exactly if those differ |
| Polygonize.AddLineEdges | worker/ufcg-default/gdal-1.10.1/alg/fpolygonize.cpp:731-736 | after a line, every polygon in memory has exactly its boundary edges seen so far, each once |
| Polygonize.BoundaryIsEven | worker/ufcg-default/gdal-1.10.1/alg/fpolygonize.cpp:322-375 | the boundary of a set of pixels has even degree at every lattice point |
| Polygonize.LeftEdge | worker/ufcg-default/gdal-1.10.1/alg/fpolygonize.cpp:322-375 | a polygon has a boundary edge on every line that it has a pixel on |
| Polygonize.FlushIsSafe | worker/ufcg-default/gdal-1.10.1/alg/fpolygonize.cpp:743-762 | a polygon that was not updated on the last two lines has its complete boundary and gets no edge on any later line |
| Polygonize.Flush | worker/ufcg-default/gdal-1.10.1/alg/fpolygonize.cpp:743-762 | every eighth line, finished polygons are written once or dropped, in the order of their ids, and what is written is the complete boundary in closed rings; those whose last line is three lines away have had their turn, no others; only polygons updated on the last two lines stay in memory |
| Polygonize.EmitPolygon | worker/ufcg-default/gdal-1.10.1/alg/fpolygonize.cpp:381-440 | a written polygon has closed rings that have every edge of its boundary once, and no other, and turn at every point but those of a horizontal side beside which the boundary rises |
| Polygonize.Cleanup | worker/ufcg-default/gdal-1.10.1/alg/fpolygonize.cpp:791-805 | all polygons left are written or dropped, in the order of their ids |
| Polygonize.FlushedBottom | worker/ufcg-default/gdal-1.10.1/alg/fpolygonize.cpp:743-762 | after a line r a polygon is found to be untouched exactly if its last line is at most r - 3 |
| Polygonize.LaterIds | worker/ufcg-default/gdal-1.10.1/alg/fpolygonize.cpp:745-747 | a polygon whose final id the second enumerator has not given out yet, and which is not looked at, reaches further down |
| RasterPolygonEnumerator.GivenOutLater | worker/ufcg-default/gdal-1.10.1/alg/fpolygonize.cpp:745-747 | an id that an enumerator has not given out after some lines is found below them only |
| Polygonize.OwnersInOrder | worker/ufcg-default/gdal-1.10.1/alg/fpolygonize.cpp:743-805 | the order in which polygons are written is that of their turns, and at one turn that of the pixels their final ids were given out for |
| Polygonize.GridIntervals | worker/ufcg-default/gdal-1.10.1/alg/fpolygonize.cpp:749-761 | the lines of every final id are an interval |
| Polygonize.GridBoundary | worker/ufcg-default/gdal-1.10.1/alg/fpolygonize.cpp:322-375 | edges between final ids are the edges between polygons |
| Polygonize.AllSeen | worker/ufcg-default/gdal-1.10.1/alg/fpolygonize.cpp:691-736 | after the blank line below the raster every boundary edge has been seen |
| Polygonize.CollectLine | worker/ufcg-default/gdal-1.10.1/alg/fpolygonize.cpp:727-774 | one line of the second pass keeps what is in memory and what is written complete |
| Polygonize.SecondPass | worker/ufcg-default/gdal-1.10.1/alg/fpolygonize.cpp:691-805 | every polygon is written or dropped once |
| Polygonize.WrittenIsPolygons | worker/ufcg-default/gdal-1.10.1/alg/fpolygonize.cpp:691-805 | what is written for final ids is one feature for each polygon but those whose value is nodata, in the order of their turns; the value of a polygon, recorded for its final id, is that of the one pixel this id was given out for |
| Polygonize.GDALFPolygonize | worker/ufcg-default/gdal-1.10.1/alg/fpolygonize.cpp:543-819 | one feature for every polygon, in closed rings that have each of its boundary edges exactly once, begin at different points and turn at every point but those of a horizontal side beside which the boundary rises; its value is that of the one pixel that the final id of the polygon was given out for, and it is left out exactly if there is a mask and that value equals nodata; features come in the order of the turns at which their polygons are complete, and then of these pixels |
| MedianCut.BoxesAtMostColours | worker/ufcg-default/gdal-1.10.1/alg/gdalmediancut.cpp:278-284 | disjoint occupied boxes are at most as many as there are quantised colours |
| MedianCut.SingleBoxesColours | worker/ufcg-default/gdal-1.10.1/alg/gdalmediancut.cpp:318-331 | boxes that cannot be split hold at most as many colours as there are boxes |
| MedianCut.FinalCount | worker/ufcg-default/gdal-1.10.1/alg/gdalmediancut.cpp:278-284 | a partition that cannot be split further, or uses all boxes, has min(boxes, colours) boxes |
| MedianCut.TotalsAddUp | worker/ufcg-default/gdal-1.10.1/alg/gdalmediancut.cpp:432-433 | the totals of the boxes add up to the number of pixels |
| MedianCut.HalvesPositive | worker/ufcg-default/gdal-1.10.1/alg/gdalmediancut.cpp:408-415 | both halves of a split have pixels |
| MedianCut.HalvesAreCut | worker/ufcg-default/gdal-1.10.1/alg/gdalmediancut.cpp:427-456 | the shrunken halves are tight boxes around the pixels before the median and around the others |
| MedianCut.SplitKeepsPartition | worker/ufcg-default/gdal-1.10.1/alg/gdalmediancut.cpp:427-456 | after a split and shrinking to fit, boxes are disjoint, tight, hold their totals and cover all colours |
| MedianCut.AxisHistogram | worker/ufcg-default/gdal-1.10.1/alg/gdalmediancut.cpp:362-407 | the histogram along an axis counts the pixels of every slab |
| MedianCut.FindCut | worker/ufcg-default/gdal-1.10.1/alg/gdalmediancut.cpp:408-415 | the cut is the least one behind the first slab of the box such that with its slab half of the pixels are reached |
| MedianCut.ShrinkAxis | worker/ufcg-default/gdal-1.10.1/alg/gdalmediancut.cpp:467-489 | bounds move to the outermost occupied slabs |
| MedianCut.ShrinkBox | worker/ufcg-default/gdal-1.10.1/alg/gdalmediancut.cpp:462-544 | a box with pixels becomes the smallest that has the same pixels |
| MedianCut.LargestBox | worker/ufcg-default/gdal-1.10.1/alg/gdalmediancut.cpp:318-331 | the first box of greatest total among those of more than one colour, or none if there are none |
| MedianCut.LinkBoxes | worker/ufcg-default/gdal-1.10.1/alg/gdalmediancut.cpp:182-190 | all boxes in one doubly linked list, for at least two colours |
| MedianCut.TakeBox | worker/ufcg-default/gdal-1.10.1/alg/gdalmediancut.cpp:417-425 | a box moves from one list to the other, and the two lists still divide the box array between them |
| MedianCut.SplitBox | worker/ufcg-default/gdal-1.10.1/alg/gdalmediancut.cpp:336-457 | the box is cut at the median of the first of its longest axes: the part before the cut is the new first box, the other one stays in its place; the partition invariant, the histogram and both lists hold after that |
| MedianCut.CollectHistogram | worker/ufcg-default/gdal-1.10.1/alg/gdalmediancut.cpp:195-265 | the histogram of the quantised colours and the bounds around them |
| MedianCut.WholeBox | worker/ufcg-default/gdal-1.10.1/alg/gdalmediancut.cpp:210-265 | the first box is a partition |
| MedianCut.SplitAll | worker/ufcg-default/gdal-1.10.1/alg/gdalmediancut.cpp:278-284 | the main loop ends, with exactly min(boxes, colours) boxes in a partition, which comes from one tight box by a history of steps that each cut the first largest box in two |
| MedianCut.GDALComputeMedianCutPCT | worker/ufcg-default/gdal-1.10.1/alg/gdalmediancut.cpp:107-312 | which parameters are refused; otherwise exactly min(colours asked for, quantised colours) boxes that divide the colours of the image, with the history of cuts they come from, and for each a colour whose every channel is midway between the least and the greatest value of the pixels in the box |
| MedianCut.EveryColourExact | worker/ufcg-default/gdal-1.10.1/alg/gdalmediancut.cpp:286-298 | with enough colours asked for, the table has every quantised colour itself |
| MedianCut.EntryIsMiddle | worker/ufcg-default/gdal-1.10.1/alg/gdalmediancut.cpp:289-298 | the colour of a box is opaque and, channel by channel, midway between eight times the least and eight times the greatest value of the pixels in it |
| MedianCut.CellOfPixel | worker/ufcg-default/gdal-1.10.1/alg/gdalmediancut.cpp:210-236 | the quantised image has, pixel by pixel, an eighth of each value of the bands |
| Crs.FindPivot | worker/ufcg-default/gdal-1.10.1/alg/gdal_crs.c:917-929 | an entry of greatest magnitude on or below the diagonal |
| Crs.SwapRows | worker/ufcg-default/gdal-1.10.1/alg/gdal_crs.c:940-956 | the two rows and their right-hand sides are exchanged, entry by entry |
| Crs.SubtractRow | worker/ufcg-default/gdal-1.10.1/alg/gdal_crs.c:966-967 | although only the columns from the pivot on are touched, the whole row changes as a row operation |
| Crs.EliminateRow | worker/ufcg-default/gdal-1.10.1/alg/gdal_crs.c:963-970 | a row operation on the matrix and both right-hand sides |
| Crs.ClearColumn | worker/ufcg-default/gdal-1.10.1/alg/gdal_crs.c:958-971 | one column more is diagonal, and the systems keep their solutions |
| Crs.SolveMat | worker/ufcg-default/gdal-1.10.1/alg/gdal_crs.c:906-984 | for every size: it gives up exactly if the matrix it was given is singular, and otherwise what it returns solves both systems as they were given |
| LinearSystems.AddRowEquivalent | worker/ufcg-default/gdal-1.10.1/alg/gdal_crs.c:961-971 | adding a multiple of one row to another keeps the solutions |
| LinearSystems.SwapEquivalent | worker/ufcg-default/gdal-1.10.1/alg/gdal_crs.c:940-956 | exchanging rows keeps the solutions |
| LinearSystems.NoPivotSingular | worker/ufcg-default/gdal-1.10.1/alg/gdal_crs.c:935-936 | a column without a pivot left shows a vector that the matrix maps to zero |
| LinearSystems.DiagonalSolution | worker/ufcg-default/gdal-1.10.1/alg/gdal_crs.c:974-981 | a diagonal system is solved by the quotients and nothing else |
| LinearSystems.DiagonalRegular | worker/ufcg-default/gdal-1.10.1/alg/gdal_crs.c:974-983 | what reduces to a diagonal matrix without zeros is not singular |
| LinearSystems.RegularUnique | worker/ufcg-default/gdal-1.10.1/alg/gdal_crs.c:906-984 | the solutions of a regular system are unique |
| LeastSquares.NormalEquations | worker/ufcg-default/gdal-1.10.1/alg/gdal_crs.c:816-855 | a vector solves the normal equations exactly if the residual is orthogonal to all terms |
| LeastSquares.GramSingular | worker/ufcg-default/gdal-1.10.1/alg/gdal_crs.c:816-855 | the normal equations are singular exactly if the points have a common zero of the terms |
| LeastSquares.GramSymmetric | worker/ufcg-default/gdal-1.10.1/alg/gdal_crs.c:847-853 | the lower half of the normal equations is the mirror image of the upper half |
| LeastSquares.Pythagoras | worker/ufcg-default/gdal-1.10.1/alg/gdal_crs.c:805-856 | the squared error of any coefficients is that of a solution of the normal equations and a sum of squares |
| LeastSquares.NormalIsBest | worker/ufcg-default/gdal-1.10.1/alg/gdal_crs.c:805-856 | the solution of regular normal equations has a smaller error than all other coefficients |
| Crs.Populate | worker/ufcg-default/gdal-1.10.1/alg/gdal_crs.c:770-789 | the active points are entered as rows, in order |
| Crs.ExactDet | worker/ufcg-default/gdal-1.10.1/alg/gdal_crs.c:759-795 | fails exactly if the points lie on a common curve of the order; otherwise every active point is mapped to its target |
| Crs.SumPoints | worker/ufcg-default/gdal-1.10.1/alg/gdal_crs.c:816-842 | the upper half of the normal equations of the active points |
| Crs.CalcLs | worker/ufcg-default/gdal-1.10.1/alg/gdal_crs.c:805-856 | refuses too few points, fails exactly if they lie on a common curve, and otherwise finds the one best fit |
| Crs.CalcCoef | worker/ufcg-default/gdal-1.10.1/alg/gdal_crs.c:694-750 | the status for every set of points, and the best fit, exact for the minimum number of points |
| Crs.ComputeGeorefEquations | worker/ufcg-default/gdal-1.10.1/alg/gdal_crs.c:645-686 | fits in both directions, or the first failure; the coordinate arrays are where they were in every case |
| Crs.PolynomialIsDot | worker/ufcg-default/gdal-1.10.1/alg/gdal_crs.c:577-637 | the polynomials of all three orders are what was fitted |
| Crs.TermsAreMonomials | worker/ufcg-default/gdal-1.10.1/alg/gdal_crs.c:869-885 | the terms of an order are all monomials of at most that degree, each in its place |
| Crs.ExactTransform | worker/ufcg-default/gdal-1.10.1/alg/gdal_crs.c:577-637 | with the minimum number of active points each is transformed exactly to its target |
| Crs.FitIsOptimal | worker/ufcg-default/gdal-1.10.1/alg/gdal_crs.c:694-885 | no other coefficients have as small a sum of squared errors over the active points |
| GridThreads.StepKeepsInv | worker/ufcg-default/gdal-1.10.1/alg/gdalgrid.cpp:1552-1657 | every step of every thread keeps the invariant of the protocol |
| GridThreads.RunInvariant | worker/ufcg-default/gdal-1.10.1/alg/gdalgrid.cpp:1964-2024 | the invariant holds in every state of every run |
| GridThreads.RowsWrittenOnce | worker/ufcg-default/gdal-1.10.1/alg/gdalgrid.cpp:1626-1654 | no row is written twice in any run |
| GridThreads.RowsAreStrided | worker/ufcg-default/gdal-1.10.1/alg/gdalgrid.cpp:1626-1650 | a row is only ever written by the worker whose number is its remainder |
| GridThreads.SuccessIsComplete | worker/ufcg-default/gdal-1.10.1/alg/gdalgrid.cpp:1981-2024 | if the gridding succeeds, every row was written exactly once, and completely |
| GridThreads.CounterIsFinishedRows | worker/ufcg-default/gdal-1.10.1/alg/gdalgrid.cpp:1552-1561 | while the stop flag is down the counter is the number of rows reported as finished, and those are written |
| GridThreads.WaitingHasWorker | worker/ufcg-default/gdal-1.10.1/alg/gdalgrid.cpp:1981-1999 | while the main thread waits some worker has not ended |
| GridThreads.NoDeadlock | worker/ufcg-default/gdal-1.10.1/alg/gdalgrid.cpp:1981-2014 | in every state of every run in which the main thread has neither finished nor gone astray some thread can take a step other than a spurious wake-up |
| GridThreads.AstrayExactlyIf | worker/ufcg-default/gdal-1.10.1/alg/gdalgrid.cpp:1969-2012 | the main thread reads a job record that was never filled in, instead of finishing, exactly if the stop flag was raised before all threads were created |
| GridThreads.AstrayBySchedule | worker/ufcg-default/gdal-1.10.1/alg/gdalgrid.cpp:1969-2012 | of a run that has finished or gone astray: it has gone astray exactly if something failed before the main thread had taken as many steps as there are threads to create |
| GridThreads.GoesAstray | worker/ufcg-default/gdal-1.10.1/alg/gdalgrid.cpp:1606-1612 | with two threads or more there is a run that goes astray: the first worker fails for want of memory before the second one is created |
| GridThreads.AstrayIsPossible | worker/ufcg-default/gdal-1.10.1/alg/gdalgrid.cpp:1969-2012 | some run goes astray if and only if there are at least two threads to create |
| GridThreads.StopMeansFailure | worker/ufcg-default/gdal-1.10.1/alg/gdalgrid.cpp:1638-1645 | the stop flag is up exactly if a worker failed or the progress callback asked for an end |
| GridThreads.StopIsHeeded | worker/ufcg-default/gdal-1.10.1/alg/gdalgrid.cpp:1639-1650 | once the stop flag is up, no worker writes more than one row |
| GridThreads.RunsAreBounded | worker/ufcg-default/gdal-1.10.1/alg/gdalgrid.cpp:1585-1657 | the length of a run is bounded, but for spurious wake-ups |
| Proximities.StepTriangle | worker/ufcg-default/gdal-1.10.1/alg/gdalproximity.cpp:468-525 | a step to a neighbour adds at most one to the distance of a target |
| Proximities.LineBuffers.ProcessPixel | worker/ufcg-default/gdal-1.10.1/alg/gdalproximity.cpp:435-535 | a target names itself at distance 0; any other pixel gets the nearest of what the entry, the one before and the one after offer below the limit, each only if it is strictly nearer than those considered earlier, and its proximity is lowered to that if it is within the maximal distance |
| Proximities.ProcessProximityLine | worker/ufcg-default/gdal-1.10.1/alg/gdalproximity.cpp:413-538 | one sweep in either direction is that of the specification, pixel by pixel |
| Proximities.TopDown | worker/ufcg-default/gdal-1.10.1/alg/gdalproximity.cpp:279-322 | the first pass leaves its proximities in the working band, line by line as the specification says |
| Proximities.BottomUp | worker/ufcg-default/gdal-1.10.1/alg/gdalproximity.cpp:326-389 | the second pass begins with the proximities of the first one; each result is nodata, the fixed value or what was found |
| Proximities.GDALComputeProximity | worker/ufcg-default/gdal-1.10.1/alg/gdalproximity.cpp:94-407 | every result is what the two passes of the specification find for the pixel, from the source band alone |
| ProximitySpread.PassKeeps | worker/ufcg-default/gdal-1.10.1/alg/gdalproximity.cpp:286-357 | in both passes entries only name targets that the pass has come over, and every proximity is the distance of a real target within the maximal distance |
| ProximitySpread.StepTakes | worker/ufcg-default/gdal-1.10.1/alg/gdalproximity.cpp:462-534 | what an entry or one of its neighbours names within range is taken over unless there is something nearer, and the proximity is at most its distance |
| ProximitySpread.SweptEntry | worker/ufcg-default/gdal-1.10.1/alg/gdalproximity.cpp:433-535 | a sweep changes an entry only when it comes to it, so that it sees the entry before as it has left it and the one after as it was |
| ProximitySpread.LineRuns | worker/ufcg-default/gdal-1.10.1/alg/gdalproximity.cpp:297-305 | the two sweeps over a line pass on what is good to name in both directions |
| ProximitySpread.PassFalls | worker/ufcg-default/gdal-1.10.1/alg/gdalproximity.cpp:286-357 | a pass carries what is good to name from line to line |
| ProximitySpread.WayServes | worker/ufcg-default/gdal-1.10.1/alg/gdalproximity.cpp:286-357 | if what is good to name can be passed on from a target along its line, then along a column and then along the line of a pixel, the pass comes to that pixel with something good |
| ProximitySpread.FoundIsDistance | worker/ufcg-default/gdal-1.10.1/alg/gdalproximity.cpp:527-534 | whatever is found for a pixel is the distance of a real target within the maximal distance, and so never below that to the nearest one |
| ProximitySpread.FoundWithinManhattan | worker/ufcg-default/gdal-1.10.1/alg/gdalproximity.cpp:279-389 | something is found for a pixel as soon as the Manhattan distance of a target is within the maximal distance, and it is at most that |
| ProximitySpread.OutputIsBounded | worker/ufcg-default/gdal-1.10.1/alg/gdalproximity.cpp:358-370 | the result is 0 exactly at targets, nodata only if there is no target in reach, and the fixed value only where there is a target in range |
| ProximitySpread.DefaultReachesAll | worker/ufcg-default/gdal-1.10.1/alg/gdalproximity.cpp:144-150 | without a given maximal distance every pixel has a result, bounded by the Manhattan distance to every target, as soon as there is a target |
| ProximityExact.ExactByColumn | worker/ufcg-default/gdal-1.10.1/alg/gdalproximity.cpp:279-389 | the exact distance to a nearest target is found if that is also a nearest one, of the targets on the line of the pixel and on its own side, where its column meets that line |
| ProximityExact.ExactByLine | worker/ufcg-default/gdal-1.10.1/alg/gdalproximity.cpp:279-389 | likewise if, where its line meets the column of the pixel, every other one of these targets is farther |
| ProximityExact.WrongNeedsTwoRivals | worker/ufcg-default/gdal-1.10.1/alg/gdalproximity.cpp:279-389 | a wrong result needs two different rivals of the nearest target, one at each corner of the way from it to the pixel |
| ProximityExact.NotEuclidean | worker/ufcg-default/gdal-1.10.1/alg/gdalproximity.cpp:279-389 | in every raster of at least four lines and columns three targets give a pixel a result that is not the distance to its nearest target |
| ProximityExact.AlwaysExactExactlyWhen | worker/ufcg-default/gdal-1.10.1/alg/gdalproximity.cpp:279-389 | for rasters of a given size with at most a given number of targets all results are exact if and only if there are at most three lines, at most three columns or at most two targets |
| BackMaps.ScanSum | worker/ufcg-default/gdal-1.10.1/alg/gdalgeoloc.cpp:361-424 | what a scan has filled so far does not count for the cells it comes to later |
| BackMaps.BackMap.SumNeighbours | worker/ufcg-default/gdal-1.10.1/alg/gdalgeoloc.cpp:358-424 | the sums over the eight neighbours, each only if it is in the map and marked high enough |
| BackMaps.BackMap.Scan | worker/ufcg-default/gdal-1.10.1/alg/gdalgeoloc.cpp:347-439 | one scan in place is a simultaneous update of all cells, and the count tells when no hole was left |
| BackMaps.BackMap.FillHoles | worker/ufcg-default/gdal-1.10.1/alg/gdalgeoloc.cpp:344-442 | as many simultaneous updates as the limit says, whether or not the loop is left early |
| BackMaps.NothingToFill | worker/ufcg-default/gdal-1.10.1/alg/gdalgeoloc.cpp:440-441 | without holes further updates change nothing |
| BackMaps.MarksAreDistances | worker/ufcg-default/gdal-1.10.1/alg/gdalgeoloc.cpp:344-442 | the mark of a cell tells the Chebyshev distance of the nearest genuinely valid cell |
| BackMaps.FilledCells | worker/ufcg-default/gdal-1.10.1/alg/gdalgeoloc.cpp:344-442 | after k updates the cells filled are exactly those within Chebyshev distance k of a genuinely valid cell |
| BackMaps.SumIsOverSet | worker/ufcg-default/gdal-1.10.1/alg/gdalgeoloc.cpp:361-424 | the sums over neighbours are sums over the set of good cells around a cell |
| BackMaps.FilledIsAverage | worker/ufcg-default/gdal-1.10.1/alg/gdalgeoloc.cpp:358-434 | a hole filled by update k becomes the average, in both coordinates, of all cells around it that are at most k - 1 steps away from a genuinely valid one, as they were before |
| BackMaps.FilledBounded | worker/ufcg-default/gdal-1.10.1/alg/gdalgeoloc.cpp:426-434 | filled values stay between the extremes of the genuine ones, in both coordinates |
| BackMaps.LeftAlone | worker/ufcg-default/gdal-1.10.1/alg/gdalgeoloc.cpp:352-356 | valid cells and holes left over are not touched |
| ContourItems.TraceConcat | worker/ufcg-default/gdal-1.10.1/alg/contour.cpp:1208-1225 | where a line is appended to another, the segments that meet move by less than the joining distance and keep their other ends |
| ContourItems.TracePrepend | worker/ufcg-default/gdal-1.10.1/alg/contour.cpp:1227-1247 | likewise in front of it |
| ContourItems.TraceReverse | worker/ufcg-default/gdal-1.10.1/alg/contour.cpp:1322-1338 | a line turned around consists of the same segments |
| ContourItems.ContourItem.AddSegment | worker/ufcg-default/gdal-1.10.1/alg/contour.cpp:1134-1191 | a segment is added exactly if the line is new or its tail is near an end of the segment; then the line consists of its segments and this one |
| ContourItems.ContourItem.Merge | worker/ufcg-default/gdal-1.10.1/alg/contour.cpp:1199-1295 | lines merge exactly if they are of one level and have ends near each other, in any of the four ways; the merged line has the segments of both and no other ends, and remembers what it was started with |
| ContourItems.ContourItem.PrepareEjection | worker/ufcg-default/gdal-1.10.1/alg/contour.cpp:1316-1340 | the points are reversed in place if the left side is the high one |
| ContourItems.StartIsOnRight | worker/ufcg-default/gdal-1.10.1/alg/contour.cpp:1316-1340 | turned around if its left side is high, a line has the high side on its right along the segment it was started with |
| ContourItems.GrownInStage | worker/ufcg-default/gdal-1.10.1/alg/contour.cpp:1153-1189 | a line that goes on at points further down the raster stays away from the ends of everything written |
| ContourItems.MergedInStage | worker/ufcg-default/gdal-1.10.1/alg/contour.cpp:1199-1295 | so does a line that takes in another one: its ends are ends of the two |
| ContourItems.NearMeans | worker/ufcg-default/gdal-1.10.1/alg/contour.cpp:47-47 | near are points that are nearer than 0.0001 in both coordinates |
| ContourLevels.ContourLevel.FindContour | worker/ufcg-default/gdal-1.10.1/alg/contour.cpp:1003-1037 | what is found has its tail near the point; something is found exactly if the binary search comes upon the very X and every tail from the start of the list to a matching one is near it in X; in a list in order that is so exactly if the first tail is near in X and the very X occurs |
| ContourLevels.FoundInOrder | worker/ufcg-default/gdal-1.10.1/alg/contour.cpp:1003-1037 | in a list in order one of several matches is arrived at exactly if the first tail is near in X and the very X is the tail of some line |
| ContourLevels.SearchMisses | worker/ufcg-default/gdal-1.10.1/alg/contour.cpp:1003-1037 | a line with the very tail searched for is missed if the line before it is elsewhere, although the list is in order |
| ContourLevels.ContourLevel.AdjustContour | worker/ufcg-default/gdal-1.10.1/alg/contour.cpp:959-979 | the list is a permutation of what it was, and if all other lines were in order, all are |
| ContourLevels.ContourLevel.RemoveContour | worker/ufcg-default/gdal-1.10.1/alg/contour.cpp:985-993 | one line leaves the list |
| ContourLevels.ContourLevel.InsertContour | worker/ufcg-default/gdal-1.10.1/alg/contour.cpp:1046-1085 | the line is put where the binary search for the level, not for its tail, ends; the others keep their order |
| ContourLevels.InsertOrder | worker/ufcg-default/gdal-1.10.1/alg/contour.cpp:1053-1068 | a list in order stays in order exactly if the new tail is between the tails on both sides of the level |
| ContourLevels.InsertMisplaces | worker/ufcg-default/gdal-1.10.1/alg/contour.cpp:1053-1068 | and so the new line can be put in the wrong place |
| ContourLevels.ContourLevel.Attach | worker/ufcg-default/gdal-1.10.1/alg/contour.cpp:680-712 | a supplied segment is in exactly one line more often than before: the attempt to add it to the line found never fails |
| ContourLevels.ContourLevel.MergeInto | worker/ufcg-default/gdal-1.10.1/alg/contour.cpp:843-851 | a line is merged exactly if some line of the level has an end near one of its ends |
| ContourLevels.ContourLevel.EjectContour | worker/ufcg-default/gdal-1.10.1/alg/contour.cpp:834-867 | a line that is taken off is written exactly if no line left has an end near one of its ends, and is merged into one of them otherwise |
| ContourLevels.ContourLevel.WrittenStage | worker/ufcg-default/gdal-1.10.1/alg/contour.cpp:853-863 | writing a line that none of those left could have taken in keeps all lines away from what has been written |
| ContourLevels.ContourLevel.NoneIsNear | worker/ufcg-default/gdal-1.10.1/alg/contour.cpp:843-851 | if no line could take in another one, none of their ends are near |
| ContourLevels.ContourLevel.EjectContours | worker/ufcg-default/gdal-1.10.1/alg/contour.cpp:823-867 | segments in lines and in written lines together stay the same; no line is left, or only recently accessed ones; no two of the lines written or left have ends near each other if there were none before |
| Contours.GDALContourGenerator.FindLevel | worker/ufcg-default/gdal-1.10.1/alg/contour.cpp:877-919 | the one level of a value, found or inserted in order |
| Contours.GDALContourGenerator.AddSegment | worker/ufcg-default/gdal-1.10.1/alg/contour.cpp:671-713 | the invariant of the generator, with the segment among those supplied |
| Contours.GDALContourGenerator.EjectContours | worker/ufcg-default/gdal-1.10.1/alg/contour.cpp:813-871 | the same on all levels |
| Contours.GDALContourGenerator.MoveTop | worker/ufcg-default/gdal-1.10.1/alg/contour.cpp:813-871 | when a line of the raster is done, what is to be ejected ends at least half a line above whatever is traced from then on |
| Contours.GDALContourGenerator.AttachedApart | worker/ufcg-default/gdal-1.10.1/alg/contour.cpp:671-713 | a new segment keeps everything under construction away from what has been written |
| ContourTraces.Intersect | worker/ufcg-default/gdal-1.10.1/alg/contour.cpp:636-664 | the point at which a level crosses an edge, if it does, is appended |
| ContourTraces.TraceLevel | worker/ufcg-default/gdal-1.10.1/alg/contour.cpp:518-626 | up to two segments, by the edges that are crossed; the branch for an unknown combination of edges is never reached |
| ContourTraces.EndsAreOnRect | worker/ufcg-default/gdal-1.10.1/alg/contour.cpp:536-664 | both ends of every segment are on the edges of the rectangle, where the interpolated value is the level |
| ContourTraces.CallsBetween | worker/ufcg-default/gdal-1.10.1/alg/contour.cpp:536-664 | the segments in a rectangle are nowhere above or below it |
| ContourTraces.PixelBetween | worker/ufcg-default/gdal-1.10.1/alg/contour.cpp:300-432 | the rectangles of line y lie between y - 0.5 and y + 0.5, and end at y below the last line |
| ContourTraces.SharedEdge | worker/ufcg-default/gdal-1.10.1/alg/contour.cpp:641-657 | two rectangles agree on where a level crosses the edge that they share |
| ContourTraces.CrossingsArePaired | worker/ufcg-default/gdal-1.10.1/alg/contour.cpp:536-626 | a level that goes through no corner crosses no, two or four edges, four exactly in a saddle, and there is a segment for every two crossings |
| ContourTraces.LeftIsHigh | worker/ufcg-default/gdal-1.10.1/alg/contour.cpp:558-606 | the side said to be high is the one with the corners higher than the level |
| ContourTraces.SaddleSides | worker/ufcg-default/gdal-1.10.1/alg/contour.cpp:560-626 | in a saddle the second segment says the right side; the first one does so exactly if the upper right corner is higher than the lower left one just in case that is lower than the level |
| ContourTraces.SaddleCanBeWrong | worker/ufcg-default/gdal-1.10.1/alg/contour.cpp:560-565 | there is a saddle in which the first segment says the wrong side |
| ContourTraces.PerturbedOffLevels | worker/ufcg-default/gdal-1.10.1/alg/contour.cpp:747-759 | a perturbed value is on no contour level |
| ContourTraces.PerturbedMeans | worker/ufcg-default/gdal-1.10.1/alg/contour.cpp:747-759 | a value on a level is moved by a thousandth of the interval, any other one is left alone |
| ContourTraces.CornersArePixels | worker/ufcg-default/gdal-1.10.1/alg/contour.cpp:293-322 | the corners of a pixel that is one rectangle are the centers of the four pixels around, with their values |
| ContourTraces.QuadrantsAreMeans | worker/ufcg-default/gdal-1.10.1/alg/contour.cpp:325-432 | the corners of quadrants are pixels, or means of the two or four pixels around |
| ContourTraces.WholePixelsAreOffLevel | worker/ufcg-default/gdal-1.10.1/alg/contour.cpp:300-322 | so in a pixel that is one rectangle no level goes through a corner |
| ContourTraces.SideIsRightUnless | worker/ufcg-default/gdal-1.10.1/alg/contour.cpp:536-606 | for every level and rectangle but the saddles off the level, with or without corners on the level: the side said to be high agrees with all corners exactly if the segment is not misled, which is told from the values at the corners |
| ContourTraces.FitsUnlessMisled | worker/ufcg-default/gdal-1.10.1/alg/contour.cpp:536-606 | with a corner on the level there is at most one segment, and what it says is right exactly if it is not misled |
| ContourTraces.QuadrantsAreNotMisled | worker/ufcg-default/gdal-1.10.1/alg/contour.cpp:325-432 | no segment in a quadrant of a pixel is misled, although levels go through its corners, which are means |
| ContourTraces.PixelSidesAreRight | worker/ufcg-default/gdal-1.10.1/alg/contour.cpp:285-432 | in every rectangle traced for a pixel of perturbed lines the side said to be high is right at every level, saddles excepted |
| ContourTraces.PerturbedOnce | worker/ufcg-default/gdal-1.10.1/alg/contour.cpp:747-759 | perturbing a value again, as the last line is, does not change it |
| ContourTraces.TracedLevels | worker/ufcg-default/gdal-1.10.1/alg/contour.cpp:450-525 | for a positive interval the levels traced in a rectangle are those between its lowest and its highest value, and no other one has a segment there |
| ContourTraces.NegativeTracesNothing | worker/ufcg-default/gdal-1.10.1/alg/contour.cpp:505-530 | for a negative interval the search for levels begins above its end or finds a flat rectangle: nothing is traced |
| ContourTraces.NegativeIntervalIsEmpty | worker/ufcg-default/gdal-1.10.1/alg/contour.cpp:505-530 | and so a raster has no segments at all |
| Contours.GDALContourGenerator.ProcessRect | worker/ufcg-default/gdal-1.10.1/alg/contour.cpp:440-630 | all levels of a rectangle are traced and their segments supplied |
| Contours.GDALContourGenerator.ProcessPixel | worker/ufcg-default/gdal-1.10.1/alg/contour.cpp:283-434 | a pixel is traced as a whole or, at the border and next to nodata, in quadrants |
| Contours.GDALContourGenerator.FeedLine | worker/ufcg-default/gdal-1.10.1/alg/contour.cpp:719-807 | what is supplied for a line is kept; after the last line the last one is processed again and every level is empty |
| Contours.ContourGenerate | worker/ufcg-default/gdal-1.10.1/alg/contour.cpp:1531-1626 | of the raster and settings of the caller every traced segment has been written, in either direction, as often as it occurs, in lines whose points are within the joining distance; no two lines of a level have ends near each other, so that none could have been joined; and every line has the high side on its right along one of the segments supplied, the one it was started with |
| ContourLevels.ContourWriter.Write | worker/ufcg-default/gdal-1.10.1/alg/contour.cpp:857-864 | what is written consists of its segments |
| ApproxTransforms.BaseTransform | worker/ufcg-default/gdal-1.10.1/alg/gdaltransformer.cpp:2488-2489 | a call of the base transformer for a range of the arrays |
| ApproxTransforms.Interpolate | worker/ufcg-default/gdal-1.10.1/alg/gdaltransformer.cpp:2556-2563 | all points of a range on a line, with the first x read until the end |
| ApproxTransforms.Subdivide | worker/ufcg-default/gdal-1.10.1/alg/gdaltransformer.cpp:2531-2546 | the second half does not disturb the first one |
| ApproxTransforms.ApproxTransform | worker/ufcg-default/gdal-1.10.1/alg/gdaltransformer.cpp:2470-2566 | it ends; nothing outside of the range is changed; the range is exact where interpolation is ruled out, interpolated where the middle is then within the error allowed, and otherwise made of two halves of which the same is true; it succeeds if the base transformer does |
| ApproxTransforms.ApproximatedRuns | worker/ufcg-default/gdal-1.10.1/alg/gdaltransformer.cpp:2499-2563 | a transformed line is divided into runs that are exact, or interpolated with exact ends and a middle within the error allowed |
| ApproxTransforms.MiddleIsNear | worker/ufcg-default/gdal-1.10.1/alg/gdaltransformer.cpp:2518-2521 | the middle output of a range is no farther from the exact one, in x and y together, than the error |
| ApproxTransforms.MissedIsDivided | worker/ufcg-default/gdal-1.10.1/alg/gdaltransformer.cpp:2518-2560 | a range is divided, and exact on both sides of the cut, if the point between its ends at the x of its middle misses the exact one by more than the error |
| ApproxTransforms.ShortOrBentIsExact | worker/ufcg-default/gdal-1.10.1/alg/gdaltransformer.cpp:2478-2485 | ranges of at most five points, of different y or of equal x at their ends, and all of them with an error of 0, are exact |
| ApproxTransforms.ApproximatedLocal | worker/ufcg-default/gdal-1.10.1/alg/gdaltransformer.cpp:2531-2546 | what is true of a half depends on nothing outside of it |
| ApproxTransforms.EndsAreExact | worker/ufcg-default/gdal-1.10.1/alg/gdaltransformer.cpp:2499-2518 | the first and the last output are those of the base transformer |
| ApproxTransforms.AffineIsExact | worker/ufcg-default/gdal-1.10.1/alg/gdaltransformer.cpp:2514-2563 | an affine base transformer is reproduced exactly on a line of constant y and z, whatever the error allowed |
| IntegralImages.FourCorners | worker/ufcg-default/gdal-1.10.1/alg/gdal_octave.cpp:113-121 | a sum over a rectangle is that of four sums from the origin |
| IntegralImages.IntegralImage.Initialize | worker/ufcg-default/gdal-1.10.1/alg/gdal_octave.cpp:49-76 | every entry of the table is the sum over the rows and columns up to it |
| IntegralImages.IntegralImage.GetValue | worker/ufcg-default/gdal-1.10.1/alg/gdal_octave.cpp:81-87 | the sum up to a row and a column, 0 before the first |
| IntegralImages.IntegralImage.GetRectangleSum | worker/ufcg-default/gdal-1.10.1/alg/gdal_octave.cpp:89-122 | the plain sum over the rectangle that is really summed up, or 0 if that is negative |
| IntegralImages.WithinIsClipped | worker/ufcg-default/gdal-1.10.1/alg/gdal_octave.cpp:89-122 | for rectangles that begin at most at the end of the image this is the part of the rectangle in the image |
| IntegralImages.ClippedExactlyWithin | worker/ufcg-default/gdal-1.10.1/alg/gdal_octave.cpp:99-101 | and for all others it is not, for some image, unless what is summed up instead is empty |
| IntegralImages.IntegralImage.HaarWaveletX | worker/ufcg-default/gdal-1.10.1/alg/gdal_octave.cpp:124-128 | the difference of the sums over the right and the left half of a square |
| IntegralImages.IntegralImage.HaarWaveletY | worker/ufcg-default/gdal-1.10.1/alg/gdal_octave.cpp:130-134 | the difference of the sums over the lower and the upper half of a square |

## Left out

- Raster I/O, progress callbacks, option parsing, memory allocation and their errors; bands are sequences of lines, the
  mask band is optional, and the features or contour lines written are sequences that grow.
- Thread creation failures and mutex acquisitions that time out. What happens once the main thread has read a job record
  that was not filled in is undefined; it is astray then. The single-threaded gridding is not modelled.
- Floating point rounding, NaN and infinity; comparisons of real numbers are exact.
- Growth of the id maps, point arrays and entry lists; 32-bit overflow of ids, coordinates and counters other than the
  polygon sizes, which saturate as in the source.
- The debug counts of CompleteMerges and of the sieve filter.
- The geotransform that is applied to ring points, contour points and proximity distances; squared distances stand for
  distances.
- MedianCut.GDALComputeMedianCutPCT: images have at least one pixel, and for one colour only the list of boxes is not
  doubly linked, because the source then points before the start of its array.
- Dithering with the colour table, checksums, nodata bit masks, warping, rasterisation, and the metrics and the quadtree
  search of the gridding.
- Removal of outliers among control points.
- Contour levels fixed in advance, an interval of 0, and writers that fail.
- ContourLevels.ContourLevel.InsertContour: does not state that the list is in order, because the search compares tails
  with the level instead of the tail of the new line.
- ContourLevels.ContourLevel.AdjustContour: states that the list is in order afterwards only if the other lines were in
  order before, because otherwise it is not.
- Proximities.GDALComputeProximity: the working band is not the source band; source and result may not share a band in
  the original either, as the second pass reads the source again.
- Proximities.BottomUp: the lines of the result are returned together rather than written one by one.
- BackMaps.BackMap.FillHoles: the projection of the geolocation array into the map, which comes before it, is left out.
- Polygonize.GDALFPolygonize: does not state which of several possible rings are formed where a boundary touches itself,
  nor at which of their points rings begin, beyond those being different.
- ApproxTransforms.ApproxTransform: the base transformer treats every point on its own; a failed call may leave
  the second half of a range untransformed.
- The Hessian detectors built on the integral image.

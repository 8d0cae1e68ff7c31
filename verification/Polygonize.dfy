/** GDALFPolygonize: one pass labels the raster, a second one collects the
    boundary of every polygon and writes polygons out as soon as no later line
    can add to them. */
module Polygonize {
  import opened Connectivity
  import opened RasterPolygonEnumerator
  import opened RPolygons
  import opened RasterBands
  import opened Wrappers

  // ---------------------------------------------------------------------
  // Boundaries of the polygons of a label grid.
  // ---------------------------------------------------------------------

  /** The label of a pixel; -1 outside the raster. */
  ghost function Label(grid: seq<seq<nat>>, x: int, y: int): int {
    if InLines(grid, Pixel(x, y)) then At(grid, Pixel(x, y)) else -1
  }

  /** e separates a pixel labelled k from a pixel that is not. */
  ghost predicate IsBoundary(grid: seq<seq<nat>>, k: nat, e: Edge) {
    match e
    case Across(x, y) => (Label(grid, x, y - 1) == k) != (Label(grid, x, y) == k)
    case Down(x, y) => (Label(grid, x - 1, y) == k) != (Label(grid, x, y) == k)
  }

  /** The line whose processing adds e. */
  function Row(e: Edge): int { e.y }

  /** How far down e reaches. */
  function LowerEnd(e: Edge): int {
    match e
    case Across(_, y) => y
    case Down(_, y) => y + 1
  }

  /** Boundaries have even degree everywhere. */
  lemma BoundaryIsEven(grid: seq<seq<nat>>, k: nat, strings: seq<seq<Point>>)
    requires forall e :: TotalCount(strings, e) == Count(IsBoundary(grid, k, e))
    ensures EvenDegrees(strings)
  {
    hide TotalCount, Label;
    forall v
      ensures Degree(strings, v) % 2 == 0
    {
      var a, b, c, d := Label(grid, v.x - 1, v.y - 1) == k, Label(grid, v.x, v.y - 1) == k,
                        Label(grid, v.x, v.y) == k, Label(grid, v.x - 1, v.y) == k;
      assert TotalCount(strings, Across(v.x, v.y)) == Count(b != c);
      assert TotalCount(strings, Across(v.x - 1, v.y)) == Count(a != d);
      assert TotalCount(strings, Down(v.x, v.y)) == Count(d != c);
      assert TotalCount(strings, Down(v.x, v.y - 1)) == Count(a != b);
      ChangesAround(a, b, c, d);
    }
  }

  /** Going around four pixels, the polygon is entered as often as it is left. */
  lemma ChangesAround(a: bool, b: bool, c: bool, d: bool)
    ensures (Count(b != c) + Count(a != d) + Count(d != c) + Count(a != b)) % 2 == 0
  {
  }

  /** Every labelled pixel has a boundary edge of its label in its own line. */
  lemma {:induction false} LeftEdge(grid: seq<seq<nat>>, k: nat, x: nat, y: int) returns (e: Edge)
    requires Label(grid, x, y) == k
    ensures e.Down? && Row(e) == y && 0 <= e.x <= x && IsBoundary(grid, k, e)
  {
    if Label(grid, x - 1, y) == k {
      e := LeftEdge(grid, k, x - 1, y);
    } else {
      e := Down(x, y);
    }
  }

  /** The lines a label occurs in form an interval. */
  ghost predicate Intervals(grid: seq<seq<nat>>) {
    forall p, q, y :: InLines(grid, p) && InLines(grid, q) && At(grid, p) == At(grid, q) && p.y <= y <= q.y
      ==> OccursIn(grid, At(grid, p), y)
  }

  ghost predicate OccursIn(grid: seq<seq<nat>>, k: nat, y: int) {
    exists x :: Label(grid, x, y) == k
  }

  ghost predicate Occurs(grid: seq<seq<nat>>, k: nat) {
    exists p :: InLines(grid, p) && At(grid, p) == k
  }

  // ---------------------------------------------------------------------
  // The polygons collected so far.
  // ---------------------------------------------------------------------

  /** Two slots never share a polygon object. */
  ghost predicate Distinct<T>(polys: array<RPolygonF?<T>>)
    reads polys
  {
    forall i, j :: 0 <= i < j < polys.Length && polys[i] != null ==> polys[i] != polys[j]
  }

  /** Of the edges in seen, poly holds exactly the boundary edges of k, each once. */
  ghost predicate Holds<T>(poly: RPolygonF<T>, grid: seq<seq<nat>>, k: nat, seen: set<Edge>)
    reads poly
  {
    && poly.Valid() && Drawn(poly.arcs)
    && (forall e :: TotalCount(poly.arcs, e) == Count(e in seen && IsBoundary(grid, k, e)))
    && (exists e :: e in seen && IsBoundary(grid, k, e) && poly.lastLineUpdated <= LowerEnd(e))
    && (forall e :: e in seen && IsBoundary(grid, k, e) ==> poly.lastLineUpdated >= Row(e))
  }

  ghost predicate Slot<T>(poly: RPolygonF?<T>, value: T, grid: seq<seq<nat>>, k: nat, written: bool, seen: set<Edge>)
    reads poly
  {
    if poly == null then !written ==> forall e :: e in seen ==> !IsBoundary(grid, k, e)
    else !written && poly.polygonValue == value && Holds(poly, grid, k, seen)
  }

  ghost function Objects<T>(polys: array<RPolygonF?<T>>): set<RPolygonF<T>>
    reads polys
  {
    set i | 0 <= i < polys.Length && polys[i] != null :: polys[i]
  }

  ghost predicate Collected<T>(polys: array<RPolygonF?<T>>, values: seq<T>, grid: seq<seq<nat>>, written: set<nat>,
                               seen: set<Edge>)
    reads polys, Objects(polys)
  {
    && Distinct(polys)
    && polys.Length == |values|
    && forall k :: 0 <= k < polys.Length ==> Slot(polys[k], values[k], grid, k, k in written, seen)
  }

  /** Adds one edge to the polygon in slot k, which is created if need be. */
  method AddTo<T>(polys: array<RPolygonF?<T>>, k: nat, values: seq<T>, x1: int, y1: int, x2: int, y2: int,
                  ghost grid: seq<seq<nat>>, ghost written: set<nat>, ghost seen: set<Edge>)
    requires k < polys.Length == |values| && Distinct(polys) && k !in written
    requires (x2 == x1 + 1 && y2 == y1) || (x2 == x1 && y2 == y1 + 1)
    requires Slot(polys[k], values[k], grid, k, false, seen)
    requires UnitEdge(x1, y1, x2, y2) !in seen && IsBoundary(grid, k, UnitEdge(x1, y1, x2, y2))
    requires forall e :: e in seen ==> Earlier(e, UnitEdge(x1, y1, x2, y2))
    modifies polys, polys[k]
    ensures Distinct(polys)
    ensures polys[k] != null && (polys[k] == old(polys[k]) || fresh(polys[k]))
    ensures forall j :: 0 <= j < polys.Length && j != k ==> polys[j] == old(polys[j])
    ensures Slot(polys[k], values[k], grid, k, false, seen + {UnitEdge(x1, y1, x2, y2)})
  {
    if polys[k] == null {
      polys[k] := new RPolygonF(values[k]);
    }
    ghost var e := UnitEdge(x1, y1, x2, y2);
    assert AllEarlier(polys[k].arcs, e);
    hide Drawn, AllEarlier, AllBent;
    polys[k].AddSegment(x1, y1, x2, y2);
    assert e in seen + {e} && IsBoundary(grid, k, e);
  }

  lemma SlotElsewhere<T>(poly: RPolygonF?<T>, value: T, grid: seq<seq<nat>>, k: nat, written: bool, seen: set<Edge>,
                         e: Edge)
    requires Slot(poly, value, grid, k, written, seen) && !IsBoundary(grid, k, e)
    ensures Slot(poly, value, grid, k, written, seen + {e})
  {
    if poly != null {
      var e0 :| e0 in seen && IsBoundary(grid, k, e0) && poly.lastLineUpdated <= LowerEnd(e0);
      assert e0 in seen + {e};
    }
  }

  /** Adds the edge between pixels of the polygons a and b (-1: none) to both. */
  method AddBetween<T>(polys: array<RPolygonF?<T>>, a: int, b: int, values: seq<T>, x1: int, y1: int, x2: int, y2: int,
                       ghost grid: seq<seq<nat>>, ghost written: set<nat>, ghost seen: set<Edge>)
    requires Collected(polys, values, grid, written, seen)
    requires -1 <= a < polys.Length && -1 <= b < polys.Length && a !in written && b !in written
    requires (x2 == x1 + 1 && y2 == y1) || (x2 == x1 && y2 == y1 + 1)
    requires UnitEdge(x1, y1, x2, y2) !in seen && forall e :: e in seen ==> Earlier(e, UnitEdge(x1, y1, x2, y2))
    requires forall k: nat :: IsBoundary(grid, k, UnitEdge(x1, y1, x2, y2)) <==> a != b && (k == a || k == b)
    modifies polys, Objects(polys)
    ensures Collected(polys, values, grid, written, seen + {UnitEdge(x1, y1, x2, y2)})
    ensures fresh(Objects(polys) - old(Objects(polys)))
  {
    hide Holds, IsBoundary;
    ghost var e := UnitEdge(x1, y1, x2, y2);
    forall k | 0 <= k < polys.Length && (a == b || (k != a && k != b))
      ensures Slot(polys[k], values[k], grid, k, k in written, seen + {e})
    {
      SlotElsewhere(polys[k], values[k], grid, k, k in written, seen, e);
    }
    if a != b {
      if a != -1 {
        AddTo(polys, a, values, x1, y1, x2, y2, grid, written, seen);
      }
      if b != -1 {
        AddTo(polys, b, values, x1, y1, x2, y2, grid, written, seen);
      }
    }
  }

  // ---------------------------------------------------------------------
  // One line of the second pass.
  // ---------------------------------------------------------------------

  /** A line buffer with one cell to spare on either side holds the raw ids of
      line y; -1 stands for no polygon. */
  ghost predicate HoldsLine(lineId: array<int>, map_: seq<nat>, grid: seq<seq<nat>>, y: int)
    reads lineId
  {
    forall i :: 0 <= i < lineId.Length ==>
      -1 <= lineId[i] < |map_| && Label(grid, i - 1, y) == if lineId[i] == -1 then -1 else map_[lineId[i]]
  }

  /** Is e added before column i of line y? */
  ghost predicate Before(xSize: nat, y: int, i: int, e: Edge) {
    match e
    case Across(x, r) => 0 <= r && -1 <= x && ((r < y && x < xSize) || (r == y && x + 1 < i))
    case Down(x, r) => 0 <= r && 0 <= x && ((r < y && x <= xSize) || (r == y && x < i))
  }

  ghost predicate SeenTo(xSize: nat, seen: set<Edge>, y: int, i: int) {
    forall e :: e in seen <==> Before(xSize, y, i, e)
  }

  /** No polygon written so far reaches the line above y, or a later one. */
  ghost predicate Finished(grid: seq<seq<nat>>, written: set<nat>, y: int) {
    forall p :: InLines(grid, p) && p.y >= y - 1 ==> At(grid, p) !in written
  }

  lemma LabelLive(grid: seq<seq<nat>>, written: set<nat>, y: int, x: int, r: int)
    requires Finished(grid, written, y) && (r == y || r == y - 1)
    ensures Label(grid, x, r) !in written
  {
    if InLines(grid, Pixel(x, r)) {
      assert At(grid, Pixel(x, r)) !in written;
    }
  }

  /** Adds the edges above and to the right of one pixel. */
  method AddEdges<T>(thisLineId: array<int>, lastLineId: array<int>, polyIdMap: seq<nat>, polyValues: seq<T>,
                     polys: array<RPolygonF?<T>>, col: nat, row: nat,
                     ghost xSize: nat, ghost grid: seq<seq<nat>>, ghost written: set<nat>, ghost seen: set<Edge>)
    returns (ghost seen': set<Edge>)
    requires thisLineId.Length == lastLineId.Length == xSize + 2 && col <= xSize
    requires HoldsLine(thisLineId, polyIdMap, grid, row) && HoldsLine(lastLineId, polyIdMap, grid, row - 1)
    requires |polyIdMap| == |polyValues| && IsFlat(polyIdMap)
    requires Collected(polys, polyValues, grid, written, seen)
    requires SeenTo(xSize, seen, row, col) && Finished(grid, written, row)
    modifies polys, Objects(polys)
    ensures Collected(polys, polyValues, grid, written, seen')
    ensures SeenTo(xSize, seen', row, col + 1)
    ensures fresh(Objects(polys) - old(Objects(polys)))
  {
    hide Collected, Finished;
    var thisId, rightId, previousId := thisLineId[col], thisLineId[col + 1], lastLineId[col];
    var realX := col - 1;
    if thisId != -1 {
      thisId := polyIdMap[thisId];
    }
    if rightId != -1 {
      rightId := polyIdMap[rightId];
    }
    if previousId != -1 {
      previousId := polyIdMap[previousId];
    }
    LabelLive(grid, written, row, realX, row);
    LabelLive(grid, written, row, realX + 1, row);
    LabelLive(grid, written, row, realX, row - 1);
    CollectedSize(polys, polyValues, grid, written, seen);
    AddBetween(polys, thisId, previousId, polyValues, realX, row, realX + 1, row, grid, written, seen);
    seen' := seen + {UnitEdge(realX, row, realX + 1, row)};
    AddBetween(polys, thisId, rightId, polyValues, realX + 1, row, realX + 1, row + 1, grid, written, seen');
    seen' := seen' + {UnitEdge(realX + 1, row, realX + 1, row + 1)};
  }

  lemma CollectedSize<T>(polys: array<RPolygonF?<T>>, values: seq<T>, grid: seq<seq<nat>>, written: set<nat>,
                         seen: set<Edge>)
    requires Collected(polys, values, grid, written, seen)
    ensures polys.Length == |values|
  {
  }

  method AddLineEdges<T>(thisLineId: array<int>, lastLineId: array<int>, polyIdMap: seq<nat>, polyValues: seq<T>,
                         polys: array<RPolygonF?<T>>, xSize: nat, row: nat,
                         ghost grid: seq<seq<nat>>, ghost written: set<nat>, ghost seen: set<Edge>)
    returns (ghost seen': set<Edge>)
    requires thisLineId.Length == lastLineId.Length == xSize + 2
    requires HoldsLine(thisLineId, polyIdMap, grid, row) && HoldsLine(lastLineId, polyIdMap, grid, row - 1)
    requires |polyIdMap| == |polyValues| && IsFlat(polyIdMap)
    requires Collected(polys, polyValues, grid, written, seen)
    requires SeenTo(xSize, seen, row, 0) && Finished(grid, written, row)
    modifies polys, Objects(polys)
    ensures Collected(polys, polyValues, grid, written, seen')
    ensures SeenTo(xSize, seen', row + 1, 0)
    ensures fresh(Objects(polys) - old(Objects(polys)))
  {
    hide Collected, Finished, Label, SeenTo;
    seen' := seen;
    for col := 0 to xSize + 1
      invariant Collected(polys, polyValues, grid, written, seen')
      invariant SeenTo(xSize, seen', row, col)
      invariant fresh(Objects(polys) - old(Objects(polys)))
    {
      seen' := AddEdges(thisLineId, lastLineId, polyIdMap, polyValues, polys, col, row, xSize, grid, written, seen');
    }
    LineSeen(xSize, seen', row);
  }

  lemma LineSeen(xSize: nat, seen: set<Edge>, y: nat)
    requires SeenTo(xSize, seen, y, xSize + 1)
    ensures SeenTo(xSize, seen, y + 1, 0)
  {
    forall e
      ensures e in seen <==> Before(xSize, y + 1, 0, e)
    {
      assert e in seen <==> Before(xSize, y, xSize + 1, e);
    }
  }

  // ---------------------------------------------------------------------
  // When polygons are written out.
  // ---------------------------------------------------------------------

  /** The last of the first n lines that a label occurs in, or -1. */
  ghost function LastLine(grid: seq<seq<nat>>, k: nat, n: nat): int {
    if n == 0 then -1 else if OccursIn(grid, k, n - 1) then n - 1 else LastLine(grid, k, n - 1)
  }

  ghost function Bottom(grid: seq<seq<nat>>, k: nat): int {
    LastLine(grid, k, |grid|)
  }

  /** The first line r with r % 8 == 7 that is at least three lines below line b. */
  function FlushLine(b: int): int {
    b + 3 + (4 - b) % 8
  }

  /** After which line a polygon with last line b is written out: that one, or the one after the blank line. */
  function Turn(h: nat, b: int): int {
    if FlushLine(b) <= h then FlushLine(b) else h + 1
  }

  lemma FlushLineIs(b: int, r: int)
    requires r % 8 == 7
    ensures FlushLine(b) % 8 == 7 && b + 3 <= FlushLine(b) < b + 11
    ensures b + 3 <= r ==> FlushLine(b) <= r
  {
  }

  /** k is written out before l: at an earlier turn, or at the same one and given out earlier. */
  ghost predicate Precedes(grid: seq<seq<nat>>, k: nat, l: nat) {
    var a, b := Turn(|grid|, Bottom(grid, k)), Turn(|grid|, Bottom(grid, l));
    a < b || (a == b && k < l)
  }

  ghost predicate InTurn(grid: seq<seq<nat>>, keys: seq<nat>) {
    forall i, j :: 0 <= i < j < |keys| ==> Precedes(grid, keys[i], keys[j])
  }

  /** What has been written had its turn by line r; what has not been has it later. */
  ghost predicate OnTurn(grid: seq<seq<nat>>, keys: seq<nat>, written: set<nat>, r: int) {
    && InTurn(grid, keys)
    && (forall i :: 0 <= i < |keys| ==> Turn(|grid|, Bottom(grid, keys[i])) <= r)
    && (forall k: nat :: Occurs(grid, k) && k !in written ==> Turn(|grid|, Bottom(grid, k)) > r)
  }

  /** While line r's turn is on: polygons below col have had it. */
  ghost predicate Turning(grid: seq<seq<nat>>, keys: seq<nat>, written: set<nat>, r: int, col: nat) {
    && InTurn(grid, keys)
    && (forall i :: 0 <= i < |keys| ==> Turn(|grid|, Bottom(grid, keys[i])) < r
                                        || (Turn(|grid|, Bottom(grid, keys[i])) == r && keys[i] < col))
    && (forall k: nat :: Occurs(grid, k) && k !in written ==>
          Turn(|grid|, Bottom(grid, k)) >= r && (k < col ==> Turn(|grid|, Bottom(grid, k)) > r))
  }

  lemma {:induction false} LastLineIs(grid: seq<seq<nat>>, k: nat, n: nat)
    ensures var b := LastLine(grid, k, n);
            -1 <= b < n && (b >= 0 ==> OccursIn(grid, k, b)) && forall y :: b < y < n ==> !OccursIn(grid, k, y)
  {
    hide OccursIn;
    if n > 0 {
      LastLineIs(grid, k, n - 1);
    }
  }

  /** The bottom line of a label is the last one that it occurs in. */
  lemma BottomIs(grid: seq<seq<nat>>, k: nat)
    ensures forall p :: InLines(grid, p) && At(grid, p) == k ==> p.y <= Bottom(grid, k)
    ensures Bottom(grid, k) >= 0 ==> exists p :: InLines(grid, p) && At(grid, p) == k && p.y == Bottom(grid, k)
    ensures Occurs(grid, k) <==> Bottom(grid, k) >= 0
  {
    LastLineIs(grid, k, |grid|);
    hide LastLine;
    forall p | InLines(grid, p) && At(grid, p) == k
      ensures p.y <= Bottom(grid, k)
    {
      assert Label(grid, p.x, p.y) == k;
      assert OccursIn(grid, k, p.y);
    }
    if Bottom(grid, k) >= 0 {
      var x :| Label(grid, x, Bottom(grid, k)) == k;
      assert At(grid, Pixel(x, Bottom(grid, k))) == k;
    }
  }

  /** A polygon is flushed once its bottom line is three lines away, not before. */
  lemma FlushedBottom<T>(poly: RPolygonF<T>, value: T, grid: seq<seq<nat>>, k: nat, xSize: nat, seen: set<Edge>,
                         row: nat)
    requires Slot(poly, value, grid, k, false, seen) && SeenTo(xSize, seen, row + 1, 0)
    requires Intervals(grid) && forall y :: 0 <= y < |grid| ==> |grid[y]| == xSize
    ensures if poly.lastLineUpdated < row - 1 then Bottom(grid, k) <= row - 3 else Bottom(grid, k) >= row - 2
  {
    BottomIs(grid, k);
    hide Bottom;
    if poly.lastLineUpdated < row - 1 {
      FlushIsSafe(poly, value, grid, k, xSize, seen, row);
      if Bottom(grid, k) >= 0 {
        var p :| InLines(grid, p) && At(grid, p) == k && p.y == Bottom(grid, k);
        var e := Across(p.x, p.y + 1);
        assert Label(grid, p.x, p.y) == k;
        assert Label(grid, p.x, p.y + 1) != k;
        assert IsBoundary(grid, k, e);
      }
    } else {
      var e :| e in seen && IsBoundary(grid, k, e) && poly.lastLineUpdated <= LowerEnd(e);
      var p := BoundaryPixel(grid, k, e);
    }
  }

  /** It is the turn of k. */
  lemma TurnTaken(grid: seq<seq<nat>>, keys: seq<nat>, written: set<nat>, r: int, k: nat, keys': seq<nat>)
    requires Turning(grid, keys, written, r, k) && Turn(|grid|, Bottom(grid, k)) == r
    requires keys' == keys || keys' == keys + [k]
    ensures Turning(grid, keys', written + {k}, r, k + 1)
  {
    hide Bottom, Occurs, Turn;
  }

  /** It is not, or there is no such polygon. */
  lemma TurnPassed(grid: seq<seq<nat>>, keys: seq<nat>, written: set<nat>, r: int, k: nat)
    requires Turning(grid, keys, written, r, k)
    requires Occurs(grid, k) && k !in written ==> Turn(|grid|, Bottom(grid, k)) > r
    ensures Turning(grid, keys, written, r, k + 1)
  {
    hide Bottom, Occurs, Turn;
  }

  /** Labels from n on still occur below line r. */
  ghost predicate LaterOnly(grid: seq<seq<nat>>, n: nat, r: int) {
    forall k: nat :: n <= k && Occurs(grid, k) ==> Bottom(grid, k) > r
  }

  lemma BelowHasLaterTurn(h: nat, b: int, r: int)
    requires r <= h && b >= r - 2
    ensures Turn(h, b) > r
  {
  }

  lemma AboveHasTurn(h: nat, b: int, r: int)
    requires r <= h && r % 8 == 7 && b <= r - 3
    ensures Turn(h, b) <= r
  {
    FlushLineIs(b, r);
  }

  lemma BeginTurn(grid: seq<seq<nat>>, keys: seq<nat>, written: set<nat>, r: int)
    requires OnTurn(grid, keys, written, r - 1)
    ensures Turning(grid, keys, written, r, 0)
  {
    hide Bottom, Occurs, Turn, InTurn;
  }

  lemma EndTurn(grid: seq<seq<nat>>, keys: seq<nat>, written: set<nat>, r: int, n: nat)
    requires Turning(grid, keys, written, r, n) && LaterOnly(grid, n, r) && r <= |grid|
    ensures OnTurn(grid, keys, written, r)
  {
    hide Bottom, Occurs, InTurn, Turn;
    forall k: nat | Occurs(grid, k) && k !in written
      ensures Turn(|grid|, Bottom(grid, k)) > r
    {
      if k >= n {
        BelowHasLaterTurn(|grid|, Bottom(grid, k), r);
      }
    }
  }

  /** Only every eighth line is somebody's turn. */
  lemma NoTurn(grid: seq<seq<nat>>, keys: seq<nat>, written: set<nat>, r: int)
    requires OnTurn(grid, keys, written, r - 1) && r % 8 != 7 && r <= |grid|
    ensures OnTurn(grid, keys, written, r)
  {
    hide Bottom, Occurs, InTurn;
    forall k: nat | Occurs(grid, k) && k !in written
      ensures Turn(|grid|, Bottom(grid, k)) > r
    {
      FlushLineIs(Bottom(grid, k), 7);
    }
  }

  /** Nothing of a polygon has been seen: it lies below. */
  lemma UnseenBottom(grid: seq<seq<nat>>, k: nat, xSize: nat, seen: set<Edge>, row: nat)
    requires SeenTo(xSize, seen, row + 1, 0) && forall y :: 0 <= y < |grid| ==> |grid[y]| == xSize
    requires Occurs(grid, k) && forall e :: e in seen ==> !IsBoundary(grid, k, e)
    ensures Bottom(grid, k) > row
  {
    BottomIs(grid, k);
    var p :| InLines(grid, p) && At(grid, p) == k;
    assert Label(grid, p.x, p.y) == k;
    var e := LeftEdge(grid, k, p.x, p.y);
    assert e in seen <==> Before(xSize, row + 1, 0, e);
  }

  // ---------------------------------------------------------------------
  // Writing polygons out.
  // ---------------------------------------------------------------------

  datatype Feature<T> = Feature(value: T, rings: seq<seq<Point>>)

  /**
   * Around the whole ring, a point is straight only between horizontal segments, and only if the boundary of k also
   * goes up from the lattice point to the right of it.
   */
  ghost predicate Cornered(grid: seq<seq<nat>>, k: nat, ring: seq<Point>) {
    forall i {:trigger ring[i]} :: 0 <= i < |ring| - 1 && Ahead(Previous(ring, i), ring[i], ring[i + 1]) ==>
      ring[i].y == ring[i + 1].y && IsBoundary(grid, k, Down(ring[i].x + 1, ring[i].y - 1))
  }

  /** No two rings begin at the same point. */
  ghost predicate BeginApart(rings: seq<seq<Point>>)
    requires ValidStrings(rings)
  {
    forall i, j :: 0 <= i < j < |rings| ==> rings[i][0] != rings[j][0]
  }

  /** Closed rings with corners that together are the boundary of k, every edge once. */
  ghost predicate Outline(grid: seq<seq<nat>>, k: nat, rings: seq<seq<Point>>) {
    && ValidStrings(rings)
    && (forall j :: 0 <= j < |rings| ==> Closed(rings[j]) && Cornered(grid, k, rings[j])) && BeginApart(rings)
    && forall e :: TotalCount(rings, e) == Count(IsBoundary(grid, k, e))
  }

  /** keys[i] is the polygon feature i stands for; written are the polygons written
      or dropped so far. */
  ghost predicate Written<T>(layer: seq<Feature<T>>, keys: seq<nat>, written: set<nat>, values: seq<T>,
                             grid: seq<seq<nat>>, masked: bool, rule: Rule<T>, nodata: T) {
    && |keys| == |layer|
    && (forall i :: 0 <= i < |keys| ==>
          && keys[i] in written && keys[i] < |values| && Outline(grid, keys[i], layer[i].rings)
          && layer[i].value == values[keys[i]] && !(masked && rule.eq(values[keys[i]], nodata)) &&
              Occurs(grid, keys[i]))
    && (forall i, j :: 0 <= i < j < |keys| ==> keys[i] != keys[j])
    && (forall k :: k in written ==> k < |values| && (k in keys || (masked && rule.eq(values[k], nodata))))
  }

  /** A polygon not touched by the last two lines is complete, and no later line can
      touch it again. */
  lemma FlushIsSafe<T>(poly: RPolygonF<T>, value: T, grid: seq<seq<nat>>, k: nat, xSize: nat, seen: set<Edge>, row: nat)
    requires Slot(poly, value, grid, k, false, seen) && SeenTo(xSize, seen, row + 1, 0)
    requires Intervals(grid) && forall y :: 0 <= y < |grid| ==> |grid[y]| == xSize
    requires poly.lastLineUpdated < row - 1
    ensures forall p :: InLines(grid, p) && At(grid, p) == k ==> p.y < row - 1
    ensures forall e :: IsBoundary(grid, k, e) ==> e in seen
  {
    forall x, y | row - 1 <= y <= row
      ensures Label(grid, x, y) != k
    {
      if Label(grid, x, y) == k {
        var e := LeftEdge(grid, k, x, y);
        assert Before(xSize, row + 1, 0, e);
      }
    }
    var e0 :| e0 in seen && IsBoundary(grid, k, e0);
    assert Before(xSize, row + 1, 0, e0);
    var p0 := BoundaryPixel(grid, k, e0);
    assert Label(grid, p0.x, p0.y) == k && p0.y < row - 1;
    assert !OccursIn(grid, At(grid, p0), row);
    forall p | InLines(grid, p) && At(grid, p) == k
      ensures p.y < row - 1
    {
      assert Label(grid, p.x, p.y) == k;
    }
    forall e | IsBoundary(grid, k, e)
      ensures e in seen
    {
      var p := BoundaryPixel(grid, k, e);
      assert Before(xSize, row + 1, 0, e);
    }
  }

  /** A boundary edge has a pixel of its polygon on one side. */
  lemma BoundaryPixel(grid: seq<seq<nat>>, k: nat, e: Edge) returns (p: Pixel)
    requires IsBoundary(grid, k, e)
    ensures InLines(grid, p) && At(grid, p) == k
    ensures p.y == e.y || (e.Across? && p.y == e.y - 1)
    ensures p.x == e.x || (e.Down? && p.x == e.x - 1)
  {
    match e
    case Across(x, y) => p := if Label(grid, x, y) == k then Pixel(x, y) else Pixel(x, y - 1);
    case Down(x, y) => p := if Label(grid, x, y) == k then Pixel(x, y) else Pixel(x - 1, y);
  }

  /** All edges have been seen once the line below the raster is done. */
  lemma AllSeen(grid: seq<seq<nat>>, xSize: nat, seen: set<Edge>, k: nat, e: Edge)
    requires SeenTo(xSize, seen, |grid| + 1, 0) && forall y :: 0 <= y < |grid| ==> |grid[y]| == xSize
    requires IsBoundary(grid, k, e)
    ensures e in seen
  {
    var p := BoundaryPixel(grid, k, e);
    assert Before(xSize, |grid| + 1, 0, e);
  }

  /** Turns a complete polygon into a feature, unless it is masked out, and frees its slot. */
  method EmitPolygon<T>(polys: array<RPolygonF?<T>>, k: nat, layer: seq<Feature<T>>, masked: bool, rule: Rule<T>,
                        nodata: T,
                        ghost keys: seq<nat>, ghost values: seq<T>, ghost grid: seq<seq<nat>>,
                        ghost written: set<nat>, ghost seen: set<Edge>)
    returns (layer': seq<Feature<T>>, ghost keys': seq<nat>)
    requires Collected(polys, values, grid, written, seen) && k < polys.Length && polys[k] != null
    requires forall e :: IsBoundary(grid, k, e) ==> e in seen
    requires Written(layer, keys, written, values, grid, masked, rule, nodata)
    modifies polys, polys[k]
    ensures Collected(polys, values, grid, written + {k}, seen)
    ensures Written(layer', keys', written + {k}, values, grid, masked, rule, nodata)
    ensures keys' == keys || keys' == keys + [k]
    ensures polys[k] == null && forall j :: 0 <= j < polys.Length && j != k ==> polys[j] == old(polys[j])
  {
    hide Holds, Written, Outline, IsBoundary, Occurs;
    layer', keys' := layer, keys;
    var poly := polys[k];
    if !masked || !rule.eq(poly.polygonValue, nodata) {
      HoldsAll(poly, grid, k, seen);
      var rings := Rings(poly, grid, k);
      layer' := layer + [Feature(poly.polygonValue, rings)];
      keys' := keys + [k];
      AppendFeature(layer, keys, written, values, grid, masked, rule, nodata, k, rings);
    } else {
      DropPolygon(layer, keys, written, values, grid, masked, rule, nodata, k);
    }
    polys[k] := null;
  }

  lemma HoldsAll<T>(poly: RPolygonF<T>, grid: seq<seq<nat>>, k: nat, seen: set<Edge>)
    requires Holds(poly, grid, k, seen) && forall e :: IsBoundary(grid, k, e) ==> e in seen
    ensures poly.Valid() && Drawn(poly.arcs) && Occurs(grid, k)
    ensures forall e :: TotalCount(poly.arcs, e) == Count(IsBoundary(grid, k, e))
  {
    var e :| e in seen && IsBoundary(grid, k, e);
    var p := BoundaryPixel(grid, k, e);
  }

  method Rings<T>(poly: RPolygonF<T>, ghost grid: seq<seq<nat>>, ghost k: nat) returns (rings: seq<seq<Point>>)
    requires poly.Valid() && Drawn(poly.arcs)
    requires forall e :: TotalCount(poly.arcs, e) == Count(IsBoundary(grid, k, e))
    modifies poly
    ensures Outline(grid, k, rings)
  {
    BoundaryIsEven(grid, k, poly.arcs);
    DrawnIsTidy(poly.arcs);
    ghost var strings := poly.arcs;
    hide Drawn, Tidy, EvenDegrees, IsBoundary;
    poly.Coalesce();
    rings := poly.arcs;
    forall e
      ensures TotalCount(rings, e) == Count(IsBoundary(grid, k, e))
    {
      assert TotalCount(rings, e) == TotalCount(strings, e);
    }
    forall j | 0 <= j < |rings|
      ensures Cornered(grid, k, rings[j])
    {
      TidyRings(rings, j);
      TidyIsCornered(grid, k, rings, rings[j]);
    }
  }

  lemma TidyIsCornered(grid: seq<seq<nat>>, k: nat, rings: seq<seq<Point>>, ring: seq<Point>)
    requires TidyRing(rings, ring) && forall e :: TotalCount(rings, e) == Count(IsBoundary(grid, k, e))
    ensures Cornered(grid, k, ring)
  {
    hide IsBoundary, TotalCount;
  }

  lemma AppendFeature<T>(layer: seq<Feature<T>>, keys: seq<nat>, written: set<nat>, values: seq<T>, grid: seq<seq<nat>>,
                         masked: bool, rule: Rule<T>, nodata: T, k: nat, rings: seq<seq<Point>>)
    requires Written(layer, keys, written, values, grid, masked, rule, nodata)
    requires k < |values| && k !in written && Occurs(grid, k) && Outline(grid, k, rings) &&
             !(masked && rule.eq(values[k], nodata))
    ensures Written(layer + [Feature(values[k], rings)], keys + [k], written + {k}, values, grid, masked, rule, nodata)
  {
    forall j | j in written + {k}
      ensures j < |values| && (j in keys + [k] || (masked && rule.eq(values[j], nodata)))
    {
      if j == k {
        assert (keys + [k])[|keys|] == k;
      } else if j in keys {
        assert j in keys + [k];
      }
    }
  }

  lemma DropPolygon<T>(layer: seq<Feature<T>>, keys: seq<nat>, written: set<nat>, values: seq<T>, grid: seq<seq<nat>>,
                       masked: bool, rule: Rule<T>, nodata: T, k: nat)
    requires Written(layer, keys, written, values, grid, masked, rule, nodata)
    requires k < |values| && masked && rule.eq(values[k], nodata)
    ensures Written(layer, keys, written + {k}, values, grid, masked, rule, nodata)
  {
  }

  ghost predicate RowsOf(grid: seq<seq<nat>>, xSize: nat) {
    forall y :: 0 <= y < |grid| ==> |grid[y]| == xSize
  }

  /** None of the first n polygons in memory was last updated before line row - 1. */
  ghost predicate Flushed<T>(polys: array<RPolygonF?<T>>, n: nat, row: nat)
    requires n <= polys.Length
    reads polys, Objects(polys)
  {
    forall k :: 0 <= k < n && polys[k] != null ==> polys[k].lastLineUpdated >= row - 1
  }

  /** Writes out the polygons that lines row - 1 and row have not touched. */
  method Flush<T>(polys: array<RPolygonF?<T>>, n: nat, row: nat, layer: seq<Feature<T>>, masked: bool, rule: Rule<T>,
                  nodata: T,
                  ghost keys: seq<nat>, ghost values: seq<T>, ghost grid: seq<seq<nat>>, ghost xSize: nat,
                  ghost written: set<nat>, ghost seen: set<Edge>)
    returns (layer': seq<Feature<T>>, ghost keys': seq<nat>, ghost written': set<nat>)
    requires Collected(polys, values, grid, written, seen) && n <= polys.Length
    requires Written(layer, keys, written, values, grid, masked, rule, nodata)
    requires Intervals(grid) && RowsOf(grid, xSize) && SeenTo(xSize, seen, row + 1, 0) &&
             Finished(grid, written, row + 1)
    requires row % 8 == 7 && row <= |grid| && OnTurn(grid, keys, written, row - 1) && LaterOnly(grid, n, row)
    modifies polys, Objects(polys)
    ensures Collected(polys, values, grid, written', seen)
    ensures Written(layer', keys', written', values, grid, masked, rule, nodata)
    ensures Finished(grid, written', row + 1) && OnTurn(grid, keys', written', row)
    ensures Objects(polys) <= old(Objects(polys)) && Flushed(polys, n, row)
  {
    hide Holds, Written, Intervals, SeenTo, IsBoundary, Turning, LaterOnly, OnTurn;
    layer', keys', written' := layer, keys, written;
    BeginTurn(grid, keys, written, row);
    for col := 0 to n
      invariant Collected(polys, values, grid, written', seen)
      invariant Written(layer', keys', written', values, grid, masked, rule, nodata)
      invariant Finished(grid, written', row + 1) && Turning(grid, keys', written', row, col)
      invariant Objects(polys) <= old(Objects(polys)) && Flushed(polys, col, row)
    {
      HaveTurn(polys, col, values, grid, xSize, written', seen, row, keys');
      if polys[col] != null && polys[col].lastLineUpdated < row - 1 {
        FlushIsSafe(polys[col], values[col], grid, col, xSize, seen, row);
        ghost var before := keys';
        layer', keys' := EmitPolygon(polys, col, layer', masked, rule, nodata, keys', values, grid, written', seen);
        TurnTaken(grid, before, written', row, col, keys');
        written' := written' + {col};
      }
    }
    EndTurn(grid, keys', written', row, n);
  }

  /** Line row is the turn of the polygon in slot k exactly if it is flushed. */
  lemma HaveTurn<T>(polys: array<RPolygonF?<T>>, k: nat, values: seq<T>, grid: seq<seq<nat>>, xSize: nat,
                    written: set<nat>, seen: set<Edge>, row: nat, keys: seq<nat>)
    requires Collected(polys, values, grid, written, seen) && k < polys.Length
    requires Intervals(grid) && RowsOf(grid, xSize) && SeenTo(xSize, seen, row + 1, 0)
    requires row % 8 == 7 && row <= |grid| && Turning(grid, keys, written, row, k)
    ensures if polys[k] != null && polys[k].lastLineUpdated < row - 1 then Turn(|grid|, Bottom(grid, k)) == row
            else Turning(grid, keys, written, row, k + 1)
  {
    assert Slot(polys[k], values[k], grid, k, k in written, seen);
    hide Turn, Bottom, SeenTo, Intervals, Turning;
    if polys[k] != null {
      FlushedBottom(polys[k], values[k], grid, k, xSize, seen, row);
      if polys[k].lastLineUpdated < row - 1 {
        AboveHasTurn(|grid|, Bottom(grid, k), row);
        HeldOccurs(polys[k], grid, k, seen);
        NotBefore(grid, keys, written, row, k);
      } else {
        BelowHasLaterTurn(|grid|, Bottom(grid, k), row);
        TurnPassed(grid, keys, written, row, k);
      }
    } else {
      if Occurs(grid, k) && k !in written {
        UnseenBottom(grid, k, xSize, seen, row);
        BelowHasLaterTurn(|grid|, Bottom(grid, k), row);
      }
      TurnPassed(grid, keys, written, row, k);
    }
  }

  lemma NotBefore(grid: seq<seq<nat>>, keys: seq<nat>, written: set<nat>, r: int, k: nat)
    requires Turning(grid, keys, written, r, k) && Occurs(grid, k) && k !in written
    ensures Turn(|grid|, Bottom(grid, k)) >= r
  {
    hide Turn, Bottom, Occurs;
  }

  lemma HeldOccurs<T>(poly: RPolygonF<T>, grid: seq<seq<nat>>, k: nat, seen: set<Edge>)
    requires Holds(poly, grid, k, seen)
    ensures Occurs(grid, k)
  {
    var e :| e in seen && IsBoundary(grid, k, e);
    var p := BoundaryPixel(grid, k, e);
  }

  /** The last turn: everything that is left has it, those below col have had it. */
  ghost predicate Taking(grid: seq<seq<nat>>, keys: seq<nat>, written: set<nat>, col: nat) {
    && InTurn(grid, keys)
    && (forall i :: 0 <= i < |keys| ==> Turn(|grid|, Bottom(grid, keys[i])) <= |grid| || keys[i] < col)
    && (forall k: nat :: Occurs(grid, k) && k !in written ==> Turn(|grid|, Bottom(grid, k)) == |grid| + 1)
  }

  lemma BeginTaking(grid: seq<seq<nat>>, keys: seq<nat>, written: set<nat>)
    requires OnTurn(grid, keys, written, |grid|)
    ensures Taking(grid, keys, written, 0)
  {
    hide Bottom, Occurs, InTurn;
  }

  lemma LastTurnTaken(grid: seq<seq<nat>>, keys: seq<nat>, written: set<nat>, k: nat, keys': seq<nat>)
    requires Taking(grid, keys, written, k) && Occurs(grid, k) && k !in written
    requires keys' == keys || keys' == keys + [k]
    ensures Taking(grid, keys', written + {k}, k + 1)
  {
    hide Bottom, Occurs;
  }

  lemma TakenLater(grid: seq<seq<nat>>, keys: seq<nat>, written: set<nat>, k: nat)
    requires Taking(grid, keys, written, k)
    ensures Taking(grid, keys, written, k + 1)
  {
    hide Bottom, Occurs, Turn, InTurn;
  }

  lemma TakenInTurn(grid: seq<seq<nat>>, keys: seq<nat>, written: set<nat>, k: nat)
    requires Taking(grid, keys, written, k)
    ensures InTurn(grid, keys)
  {
    hide InTurn;
  }

  /** Writes out all polygons that are left. */
  method Cleanup<T>(polys: array<RPolygonF?<T>>, n: nat, layer: seq<Feature<T>>, masked: bool, rule: Rule<T>, nodata: T,
                    ghost keys: seq<nat>, ghost values: seq<T>, ghost grid: seq<seq<nat>>, ghost xSize: nat,
                    ghost written: set<nat>, ghost seen: set<Edge>)
    returns (layer': seq<Feature<T>>, ghost keys': seq<nat>, ghost written': set<nat>)
    requires Collected(polys, values, grid, written, seen) && n == polys.Length
    requires Written(layer, keys, written, values, grid, masked, rule, nodata)
    requires RowsOf(grid, xSize) && SeenTo(xSize, seen, |grid| + 1, 0)
    requires OnTurn(grid, keys, written, |grid|)
    modifies polys, Objects(polys)
    ensures Written(layer', keys', written', values, grid, masked, rule, nodata)
    ensures UnwrittenUnseen(grid, |values|, written', seen) && InTurn(grid, keys')
  {
    hide Holds, Written, SeenTo, IsBoundary, Taking, OnTurn, InTurn;
    layer', keys', written' := layer, keys, written;
    BeginTaking(grid, keys, written);
    for col := 0 to n
      invariant Collected(polys, values, grid, written', seen)
      invariant Written(layer', keys', written', values, grid, masked, rule, nodata)
      invariant Objects(polys) <= old(Objects(polys)) && Taking(grid, keys', written', col)
      invariant forall k :: 0 <= k < col ==> polys[k] == null
    {
      if polys[col] != null {
        forall e | IsBoundary(grid, col, e)
          ensures e in seen
        {
          AllSeen(grid, xSize, seen, col, e);
        }
        HeldOccurs(polys[col], grid, col, seen);
        ghost var before := keys';
        layer', keys' := EmitPolygon(polys, col, layer', masked, rule, nodata, keys', values, grid, written', seen);
        LastTurnTaken(grid, before, written', col, keys');
        written' := written' + {col};
      } else {
        TakenLater(grid, keys', written', col);
      }
    }
    TakenInTurn(grid, keys', written', n);
  }

  // ---------------------------------------------------------------------
  // The whole algorithm.
  // ---------------------------------------------------------------------

  /** e separates a pixel of p's polygon from a pixel outside it. */
  ghost predicate OnBoundary<T>(img: seq<seq<T>>, rule: Rule<T>, p: Pixel, e: Edge) {
    match e
    case Across(x, y) => Connected(img, rule, p, Pixel(x, y - 1)) != Connected(img, rule, p, Pixel(x, y))
    case Down(x, y) => Connected(img, rule, p, Pixel(x - 1, y)) != Connected(img, rule, p, Pixel(x, y))
  }

  /**
   * Around the whole ring, a point is straight only between horizontal segments, and only if the boundary of p's
   * polygon also goes up from the lattice point to the right of it.
   */
  ghost predicate HasCorners<T>(img: seq<seq<T>>, rule: Rule<T>, p: Pixel, ring: seq<Point>) {
    forall i {:trigger ring[i]} :: 0 <= i < |ring| - 1 && Ahead(Previous(ring, i), ring[i], ring[i + 1]) ==>
      ring[i].y == ring[i + 1].y && OnBoundary(img, rule, p, Down(ring[i].x + 1, ring[i].y - 1))
  }

  /** The rings are closed, have corners, and run along the boundary of p's polygon, each unit edge once. */
  ghost predicate Outlines<T>(img: seq<seq<T>>, rule: Rule<T>, p: Pixel, rings: seq<seq<Point>>) {
    && ValidStrings(rings)
    && (forall j :: 0 <= j < |rings| ==> Closed(rings[j]) && HasCorners(img, rule, p, rings[j])) && BeginApart(rings)
    && forall e :: TotalCount(rings, e) == Count(OnBoundary(img, rule, p, e))
  }

  /**
   * Exactly one of the pixels is in the polygon of each pixel, and each is the one that the final id of its polygon was
   * given out for. RootPixelIsUnique: there is only one such pixel in a polygon.
   */
  ghost predicate OneOfEach<T>(img: seq<seq<T>>, rule: Rule<T>, starts: seq<Pixel>) {
    && (forall i :: 0 <= i < |starts| ==> IsRootPixel(img, rule, starts[i]))
    && (forall i, j :: 0 <= i < j < |starts| ==> !Connected(img, rule, starts[i], starts[j]))
    && (forall p :: InLines(img, p) ==> exists i :: 0 <= i < |starts| && Connected(img, rule, starts[i], p))
  }

  /**
   * One feature for every polygon that is not dropped. The value of the pixel that the final id of a polygon was given
   * out for is that of its feature, and decides whether it is dropped: owners[i] is that of feature i, dropped those of
   * the other polygons. Features come by the turns at which they are written, and then in the order of these pixels.
   */
  ghost predicate PolygonsOf<T>(img: seq<seq<T>>, rule: Rule<T>, masked: bool, nodata: T, layer: seq<Feature<T>>,
                                owners: seq<Pixel>, dropped: seq<Pixel>) {
    && (forall i, j :: 0 <= i < j < |owners| ==> WrittenBefore(img, rule, owners[i], owners[j]))
    && OneOfEach(img, rule, owners + dropped)
    && AreFeatures(img, rule, masked, nodata, layer, owners)
    && AreDropped(img, rule, masked, nodata, dropped)
  }

  /** b is the last line that p's polygon has pixels on. */
  ghost predicate IsBottom<T>(img: seq<seq<T>>, rule: Rule<T>, p: Pixel, b: int) {
    && (exists q :: Connected(img, rule, p, q) && q.y == b)
    && (forall q :: Connected(img, rule, p, q) ==> q.y <= b)
  }

  /** p's polygon has an earlier turn than q's, or the same and p comes before q. */
  ghost predicate WrittenBefore<T>(img: seq<seq<T>>, rule: Rule<T>, p: Pixel, q: Pixel) {
    forall a, b :: IsBottom(img, rule, p, a) && IsBottom(img, rule, q, b) ==>
      || Turn(|img|, a) < Turn(|img|, b)
      || (Turn(|img|, a) == Turn(|img|, b) && (p.y < q.y || (p.y == q.y && p.x < q.x)))
  }

  /** owners[i] is in the polygon of feature i and has its value, which is not nodata. */
  ghost predicate AreFeatures<T>(img: seq<seq<T>>, rule: Rule<T>, masked: bool, nodata: T, layer: seq<Feature<T>>,
                                 owners: seq<Pixel>) {
    && |owners| == |layer|
    && forall i :: 0 <= i < |layer| ==>
         && InLines(img, owners[i]) && layer[i].value == At(img, owners[i]) &&
             !(masked && rule.eq(layer[i].value, nodata))
         && Outlines(img, rule, owners[i], layer[i].rings)
  }

  ghost predicate AreDropped<T>(img: seq<seq<T>>, rule: Rule<T>, masked: bool, nodata: T, dropped: seq<Pixel>) {
    forall i :: 0 <= i < |dropped| ==> InLines(img, dropped[i]) && masked && rule.eq(At(img, dropped[i]), nodata)
  }

  ghost function FinalGrid(map_: seq<nat>, ids: seq<seq<nat>>): (grid: seq<seq<nat>>)
    ensures SameShape(ids, grid)
  {
    seq(|ids|, y requires 0 <= y < |ids| =>
      seq(|ids[y]|, x requires 0 <= x < |ids[y]| => if ids[y][x] < |map_| then map_[ids[y][x]] else 0))
  }

  /** The labels of the grid are the polygons of the raster. */
  ghost predicate IsGrid<T>(img: seq<seq<T>>, rule: Rule<T>, grid: seq<seq<nat>>) {
    && SameShape(img, grid)
    && forall p, q :: InLines(grid, p) && InLines(grid, q) ==>
        (At(grid, p) == At(grid, q) <==> Connected(img, rule, p, q))
  }

  lemma FinalGridIsGrid<T(!new)>(e: GDALRasterPolygonEnumerator<T>)
    requires e.Valid() && e.Flat()
    ensures SameShape(e.lines, e.lineIds)
    ensures IsGrid(e.lines, e.rule, FinalGrid(e.polyIdMap, e.lineIds))
    ensures forall p :: InLines(e.lineIds, p) ==>
              && At(e.lineIds, p) < |e.polyIdMap|
              && At(FinalGrid(e.polyIdMap, e.lineIds), p) == e.polyIdMap[At(e.lineIds, p)]
  {
    IdsBelow(e);
    var grid := FinalGrid(e.polyIdMap, e.lineIds);
    forall p, q | InLines(grid, p) && InLines(grid, q)
      ensures At(grid, p) == At(grid, q) <==> Connected(e.lines, e.rule, p, q)
    {
      SamePolygon(e, p, q);
    }
  }

  lemma GridIntervals<T>(img: seq<seq<T>>, rule: Rule<T>, grid: seq<seq<nat>>)
    requires IsGrid(img, rule, grid)
    ensures Intervals(grid)
  {
    forall p, q, y | InLines(grid, p) && InLines(grid, q) && At(grid, p) == At(grid, q) && p.y <= y <= q.y
      ensures OccursIn(grid, At(grid, p), y)
    {
      ConnectedCrossesEveryLine(img, rule, p, q, y);
      var r: Pixel :| r.y == y && Connected(img, rule, p, r);
      ConnectedInLines(img, rule, p, r);
      assert At(grid, r) == At(grid, p);
      assert Label(grid, r.x, y) == At(grid, p);
    }
  }

  /** Boundaries of labels are boundaries of polygons. */
  lemma GridBoundary<T>(img: seq<seq<T>>, rule: Rule<T>, grid: seq<seq<nat>>, p: Pixel, e: Edge)
    requires IsGrid(img, rule, grid) && InLines(grid, p)
    ensures IsBoundary(grid, At(grid, p), e) <==> OnBoundary(img, rule, p, e)
  {
    var k := At(grid, p);
    forall q: Pixel
      ensures Label(grid, q.x, q.y) == k <==> Connected(img, rule, p, q)
    {
      if Connected(img, rule, p, q) {
        ConnectedInLines(img, rule, p, q);
      }
    }
    match e
    case Across(x, y) =>
      assert Pixel(x, y).x == x && Pixel(x, y - 1).x == x;
    case Down(x, y) =>
      assert Pixel(x, y).x == x && Pixel(x - 1, y).x == x - 1;
  }

  /** origins[k] is the pixel the final id k was created for. */
  ghost predicate Origins<T>(img: seq<seq<T>>, rule: Rule<T>, grid: seq<seq<nat>>, values: seq<T>,
                             origins: seq<Pixel>) {
    && |origins| == |values| && SameShape(img, grid)
    && (forall p :: InLines(grid, p) ==> At(grid, p) < |values|)
    && forall k :: 0 <= k < |values| && Occurs(grid, k) ==>
         && InLines(grid, origins[k]) && At(grid, origins[k]) == k && At(img, origins[k]) == values[k]
         && IsRootPixel(img, rule, origins[k]) && At(RawIds(rule, img).lines, origins[k]) == k
  }

  lemma OriginsEstablished<T(!new)>(e: GDALRasterPolygonEnumerator<T>)
    requires e.Valid() && e.Flat()
    ensures Origins(e.lines, e.rule, FinalGrid(e.polyIdMap, e.lineIds), e.polyValue, e.origin)
  {
    FinalGridIsGrid(e);
    FinalIdsAre(e);
    hide RootsAre, RawMerges, RawIds, FinalIdsOf, IsGrid, FinalGrid, Sound, Agree;
    var grid := FinalGrid(e.polyIdMap, e.lineIds);
    forall k | 0 <= k < |e.polyValue| && Occurs(grid, k)
      ensures InLines(grid, e.origin[k]) && At(grid, e.origin[k]) == k && At(e.lines, e.origin[k]) == e.polyValue[k]
      ensures IsRootPixel(e.lines, e.rule, e.origin[k]) && At(RawIds(e.rule, e.lines).lines, e.origin[k]) == k
    {
      var p :| InLines(grid, p) && At(grid, p) == k;
      assert InLines(e.lineIds, p);
      assert e.polyIdMap[k] == k;
      assert InLines(e.lineIds, e.origin[k]) && At(e.lineIds, e.origin[k]) == k;
    }
    forall p | InLines(grid, p)
      ensures At(grid, p) < |e.polyValue|
    {
      assert InLines(e.lineIds, p);
    }
  }

  /** The ids below n that occur and have no feature. */
  ghost function Missing(grid: seq<seq<nat>>, keys: seq<nat>, n: nat): seq<nat> {
    if n == 0 then [] else
    Missing(grid, keys, n - 1) + if Occurs(grid, n - 1) && n - 1 !in keys then [n - 1] else []
  }

  lemma {:induction false} MissingMember(grid: seq<seq<nat>>, keys: seq<nat>, n: nat, k: nat)
    ensures k in Missing(grid, keys, n) <==> k < n && Occurs(grid, k) && k !in keys
  {
    hide Occurs;
    if n > 0 {
      MissingMember(grid, keys, n - 1, k);
    }
  }

  ghost predicate Increasing(r: seq<nat>, n: nat) {
    (forall i :: 0 <= i < |r| ==> r[i] < n) && (forall i, j :: 0 <= i < j < |r| ==> r[i] < r[j])
  }

  lemma IncreasingNext(r: seq<nat>, n: nat)
    requires Increasing(r, n)
    ensures Increasing(r, n + 1) && Increasing(r + [n], n + 1)
  {
  }

  lemma {:induction false} MissingIncreases(grid: seq<seq<nat>>, keys: seq<nat>, n: nat)
    ensures Increasing(Missing(grid, keys, n), n)
  {
    hide Occurs, Increasing;
    if n == 0 {
      assert Increasing([], 0) by {
        NothingIncreases();
      }
    } else {
      MissingIncreases(grid, keys, n - 1);
      IncreasingNext(Missing(grid, keys, n - 1), n - 1);
      assert Missing(grid, keys, n - 1) + [] == Missing(grid, keys, n - 1);
    }
  }

  lemma NothingIncreases()
    ensures Increasing([], 0)
  {
  }

  lemma MissingIs(grid: seq<seq<nat>>, keys: seq<nat>, n: nat)
    ensures var r := Missing(grid, keys, n);
            && (forall i :: 0 <= i < |r| ==> r[i] < n && Occurs(grid, r[i]) && r[i] !in keys)
            && (forall k :: 0 <= k < n && Occurs(grid, k) && k !in keys ==> k in r)
            && (forall i, j :: 0 <= i < j < |r| ==> r[i] != r[j])
  {
    hide Occurs, Missing;
    MissingIncreases(grid, keys, n);
    forall k: nat
      ensures k in Missing(grid, keys, n) <==> k < n && Occurs(grid, k) && k !in keys
    {
      MissingMember(grid, keys, n, k);
    }
  }

  /** ks are the ids in the grid, each once; all are below n. */
  ghost predicate AreLabels(grid: seq<seq<nat>>, n: nat, ks: seq<nat>) {
    && (forall i :: 0 <= i < |ks| ==> ks[i] < n && Occurs(grid, ks[i]))
    && (forall i, j :: 0 <= i < j < |ks| ==> ks[i] != ks[j])
    && (forall k :: Occurs(grid, k) ==> k in ks)
  }

  /** The pixel that an id was created for. */
  ghost function StartOf(origins: seq<Pixel>, k: nat): Pixel {
    if k < |origins| then origins[k] else Pixel(0, 0)
  }

  ghost function StartsOf(origins: seq<Pixel>, ks: seq<nat>): seq<Pixel> {
    seq(|ks|, i requires 0 <= i < |ks| => StartOf(origins, ks[i]))
  }

  lemma StartsOfConcat(origins: seq<Pixel>, ks: seq<nat>, ks': seq<nat>)
    ensures StartsOf(origins, ks + ks') == StartsOf(origins, ks) + StartsOf(origins, ks')
  {
  }

  lemma StartsAreOneOfEach<T>(img: seq<seq<T>>, rule: Rule<T>, grid: seq<seq<nat>>, values: seq<T>, origins: seq<Pixel>,
                              ks: seq<nat>)
    requires IsGrid(img, rule, grid) && Origins(img, rule, grid, values, origins)
    requires AreLabels(grid, |values|, ks)
    ensures OneOfEach(img, rule, StartsOf(origins, ks))
  {
    hide IsGrid, IsRootPixel, Connected, Origins;
    var starts := StartsOf(origins, ks);
    forall i | 0 <= i < |ks|
      ensures IsRootPixel(img, rule, starts[i]) && InLines(grid, starts[i]) && At(grid, starts[i]) == ks[i]
    {
      StartIs(img, rule, grid, values, origins, ks[i]);
    }
    forall p | InLines(img, p)
      ensures exists i :: 0 <= i < |starts| && Connected(img, rule, starts[i], p)
    {
      LabelOccurs(img, rule, grid, p);
      var i :| 0 <= i < |ks| && ks[i] == At(grid, p);
      SameLabel(img, rule, grid, starts[i], p);
    }
    forall i, j | 0 <= i < j < |starts|
      ensures !Connected(img, rule, starts[i], starts[j])
    {
      SameLabel(img, rule, grid, starts[i], starts[j]);
    }
  }

  lemma StartIs<T>(img: seq<seq<T>>, rule: Rule<T>, grid: seq<seq<nat>>, values: seq<T>, origins: seq<Pixel>, k: nat)
    requires Origins(img, rule, grid, values, origins) && k < |values| && Occurs(grid, k)
    ensures var p := StartOf(origins, k);
            && IsRootPixel(img, rule, p) && InLines(grid, p) && At(grid, p) == k
            && InLines(img, p) && At(img, p) == values[k] && RootId(img, rule, p) == k
  {
    hide Occurs, IsRootPixel;
  }

  ghost function RootId<T>(img: seq<seq<T>>, rule: Rule<T>, p: Pixel): nat
    requires IsRootPixel(img, rule, p)
  {
    At(RawIds(rule, img).lines, p)
  }

  lemma LabelOccurs<T>(img: seq<seq<T>>, rule: Rule<T>, grid: seq<seq<nat>>, p: Pixel)
    requires IsGrid(img, rule, grid) && InLines(img, p)
    ensures InLines(grid, p) && Occurs(grid, At(grid, p))
  {
  }

  lemma SameLabel<T>(img: seq<seq<T>>, rule: Rule<T>, grid: seq<seq<nat>>, p: Pixel, q: Pixel)
    requires IsGrid(img, rule, grid) && InLines(grid, p) && InLines(grid, q)
    ensures At(grid, p) == At(grid, q) <==> Connected(img, rule, p, q)
  {
    hide Connected;
  }

  /** Of what has not been written or dropped no edge has been seen. */
  ghost predicate UnwrittenUnseen(grid: seq<seq<nat>>, n: nat, written: set<nat>, seen: set<Edge>) {
    forall k, e :: 0 <= k < n && k !in written && e in seen ==> !IsBoundary(grid, k, e)
  }

  /** All occurring polygons have been written or dropped. */
  lemma OccurringIsWritten(grid: seq<seq<nat>>, xSize: nat, n: nat, written: set<nat>, seen: set<Edge>, k: nat)
    requires RowsOf(grid, xSize) && SeenTo(xSize, seen, |grid| + 1, 0) && k < n && Occurs(grid, k)
    requires UnwrittenUnseen(grid, n, written, seen)
    ensures k in written
  {
    var p :| InLines(grid, p) && At(grid, p) == k;
    assert Label(grid, p.x, p.y) == k;
    var e := LeftEdge(grid, k, p.x, p.y);
    AllSeen(grid, xSize, seen, k, e);
  }

  lemma FeatureOutlines<T>(img: seq<seq<T>>, rule: Rule<T>, grid: seq<seq<nat>>, p: Pixel, rings: seq<seq<Point>>)
    requires IsGrid(img, rule, grid) && InLines(grid, p) && Outline(grid, At(grid, p), rings)
    ensures InLines(img, p) && Outlines(img, rule, p, rings)
  {
    forall e
      ensures TotalCount(rings, e) == Count(OnBoundary(img, rule, p, e))
    {
      GridBoundary(img, rule, grid, p, e);
    }
    forall j | 0 <= j < |rings|
      ensures HasCorners(img, rule, p, rings[j])
    {
      CorneredHasCorners(img, rule, grid, p, rings[j]);
    }
  }

  lemma CorneredHasCorners<T>(img: seq<seq<T>>, rule: Rule<T>, grid: seq<seq<nat>>, p: Pixel, ring: seq<Point>)
    requires IsGrid(img, rule, grid) && InLines(grid, p) && Cornered(grid, At(grid, p), ring)
    ensures HasCorners(img, rule, p, ring)
  {
    hide IsGrid, IsBoundary, OnBoundary, Ahead;
    forall i | 0 <= i < |ring| - 1 && Ahead(Previous(ring, i), ring[i], ring[i + 1])
      ensures ring[i].y == ring[i + 1].y && OnBoundary(img, rule, p, Down(ring[i].x + 1, ring[i].y - 1))
    {
      GridBoundary(img, rule, grid, p, Down(ring[i].x + 1, ring[i].y - 1));
    }
  }

  /** The final ids with features and those without are all that occur. */
  lemma KeysAndMissing<T>(layer: seq<Feature<T>>, keys: seq<nat>, written: set<nat>, values: seq<T>,
                          grid: seq<seq<nat>>,
                          xSize: nat, masked: bool, rule: Rule<T>, nodata: T, seen: set<Edge>)
    requires Written(layer, keys, written, values, grid, masked, rule, nodata)
    requires RowsOf(grid, xSize) && SeenTo(xSize, seen, |grid| + 1, 0)
    requires UnwrittenUnseen(grid, |values|, written, seen)
    requires forall p :: InLines(grid, p) ==> At(grid, p) < |values|
    ensures |keys| == |layer| && AreLabels(grid, |values|, keys + Missing(grid, keys, |values|))
  {
    hide Outline, SeenTo, RowsOf, IsBoundary;
    var missing := Missing(grid, keys, |values|);
    MissingIs(grid, keys, |values|);
    hide Missing;
    forall k: nat | Occurs(grid, k)
      ensures k in keys + missing
    {
      var p :| InLines(grid, p) && At(grid, p) == k;
      if k !in keys {
        assert k in missing;
      }
    }
  }

  /** What is without a feature has been dropped. */
  lemma DroppedStarts<T>(img: seq<seq<T>>, rule: Rule<T>, grid: seq<seq<nat>>, xSize: nat, values: seq<T>,
                         origins: seq<Pixel>, masked: bool, nodata: T, layer: seq<Feature<T>>, keys: seq<nat>,
                         written: set<nat>, seen: set<Edge>)
    requires IsGrid(img, rule, grid) && Origins(img, rule, grid, values, origins)
    requires Written(layer, keys, written, values, grid, masked, rule, nodata)
    requires RowsOf(grid, xSize) && SeenTo(xSize, seen, |grid| + 1, 0)
    requires UnwrittenUnseen(grid, |values|, written, seen)
    ensures AreDropped(img, rule, masked, nodata, StartsOf(origins, Missing(grid, keys, |values|)))
  {
    hide Written, SeenTo, RowsOf, UnwrittenUnseen, IsRootPixel, IsGrid, Origins, Occurs;
    var missing := Missing(grid, keys, |values|);
    MissingIs(grid, keys, |values|);
    hide Missing;
    var dropped := StartsOf(origins, missing);
    forall i | 0 <= i < |dropped|
      ensures InLines(img, dropped[i]) && masked && rule.eq(At(img, dropped[i]), nodata)
    {
      var k := missing[i];
      OccurringIsWritten(grid, xSize, |values|, written, seen, k);
      StartIs(img, rule, grid, values, origins, k);
      WrittenWithoutFeature(layer, keys, written, values, grid, masked, rule, nodata, k);
    }
  }

  lemma WrittenWithoutFeature<T>(layer: seq<Feature<T>>, keys: seq<nat>, written: set<nat>, values: seq<T>,
                                 grid: seq<seq<nat>>, masked: bool, rule: Rule<T>, nodata: T, k: nat)
    requires Written(layer, keys, written, values, grid, masked, rule, nodata) && k in written && k !in keys
    ensures k < |values| && masked && rule.eq(values[k], nodata)
  {
    hide Outline, Occurs;
  }

  /** A feature is that of the polygon of the pixel its id was created for. */
  lemma FeatureStarts<T>(img: seq<seq<T>>, rule: Rule<T>, grid: seq<seq<nat>>, values: seq<T>, origins: seq<Pixel>,
                         masked: bool, nodata: T, layer: seq<Feature<T>>, keys: seq<nat>, written: set<nat>)
    requires IsGrid(img, rule, grid) && Origins(img, rule, grid, values, origins)
    requires Written(layer, keys, written, values, grid, masked, rule, nodata)
    ensures AreFeatures(img, rule, masked, nodata, layer, StartsOf(origins, keys))
  {
    hide Outline, Outlines, IsRootPixel, Origins, IsGrid, Occurs;
    var owners := StartsOf(origins, keys);
    forall i | 0 <= i < |layer|
      ensures InLines(img, owners[i]) && layer[i].value == At(img, owners[i])
      ensures !(masked && rule.eq(layer[i].value, nodata)) && Outlines(img, rule, owners[i], layer[i].rings)
    {
      StartIs(img, rule, grid, values, origins, keys[i]);
      FeatureOutlines(img, rule, grid, StartOf(origins, keys[i]), layer[i].rings);
    }
  }

  lemma BottomIsBottom<T>(img: seq<seq<T>>, rule: Rule<T>, grid: seq<seq<nat>>, p: Pixel, b: int)
    requires IsGrid(img, rule, grid) && InLines(grid, p) && IsBottom(img, rule, p, b)
    ensures b == Bottom(grid, At(grid, p)) && |grid| == |img|
  {
    var k := At(grid, p);
    BottomIs(grid, k);
    hide Bottom;
    var q :| Connected(img, rule, p, q) && q.y == b;
    ConnectedInLines(img, rule, p, q);
    hide Connected;
    assert At(grid, q) == k;
    var r :| InLines(grid, r) && At(grid, r) == k && r.y == Bottom(grid, k);
    assert Connected(img, rule, p, r);
  }

  /** Final ids in turn are features in order. */
  lemma OwnersInOrder<T(!new)>(img: seq<seq<T>>, rule: Rule<T>, grid: seq<seq<nat>>, values: seq<T>,
                               origins: seq<Pixel>, k: nat, l: nat)
    requires ValidRule(rule) && IsGrid(img, rule, grid) && Origins(img, rule, grid, values, origins)
    requires k < |values| && l < |values| && Occurs(grid, k) && Occurs(grid, l) && Precedes(grid, k, l)
    ensures WrittenBefore(img, rule, StartOf(origins, k), StartOf(origins, l))
  {
    StartIs(img, rule, grid, values, origins, k);
    StartIs(img, rule, grid, values, origins, l);
    var p, q := StartOf(origins, k), StartOf(origins, l);
    hide Bottom, IsBottom, Turn, Origins, StartOf, Occurs;
    forall a, b | IsBottom(img, rule, p, a) && IsBottom(img, rule, q, b)
      ensures || Turn(|img|, a) < Turn(|img|, b)
              || (Turn(|img|, a) == Turn(|img|, b) && (p.y < q.y || (p.y == q.y && p.x < q.x)))
    {
      BottomIsBottom(img, rule, grid, p, a);
      BottomIsBottom(img, rule, grid, q, b);
      hide IsGrid;
      if k < l && (q.y < p.y || (q.y == p.y && q.x <= p.x)) && q != p {
        StartsInOrder(rule, img, q, p);
      }
    }
  }

  lemma WrittenIsPolygons<T(!new)>(img: seq<seq<T>>, rule: Rule<T>, grid: seq<seq<nat>>, xSize: nat, values: seq<T>,
                                   origins: seq<Pixel>, masked: bool, nodata: T, layer: seq<Feature<T>>,
                                   keys: seq<nat>, written: set<nat>, seen: set<Edge>)
    returns (owners: seq<Pixel>, dropped: seq<Pixel>)
    requires IsGrid(img, rule, grid) && Origins(img, rule, grid, values, origins) && ValidRule(rule)
    requires Written(layer, keys, written, values, grid, masked, rule, nodata) && InTurn(grid, keys)
    requires RowsOf(grid, xSize) && SeenTo(xSize, seen, |grid| + 1, 0)
    requires UnwrittenUnseen(grid, |values|, written, seen)
    ensures PolygonsOf(img, rule, masked, nodata, layer, owners, dropped)
  {
    OriginsBelow(img, rule, grid, values, origins);
    hide Written, Origins, SeenTo, RowsOf, UnwrittenUnseen, IsGrid, OneOfEach, AreLabels, AreFeatures, AreDropped,
        StartsOf, Missing, InTurn, WrittenBefore;
    var missing := Missing(grid, keys, |values|);
    owners, dropped := StartsOf(origins, keys), StartsOf(origins, missing);
    KeysAndMissing(layer, keys, written, values, grid, xSize, masked, rule, nodata, seen);
    StartsAreOneOfEach(img, rule, grid, values, origins, keys + missing);
    StartsOfConcat(origins, keys, missing);
    FeatureStarts(img, rule, grid, values, origins, masked, nodata, layer, keys, written);
    DroppedStarts(img, rule, grid, xSize, values, origins, masked, nodata, layer, keys, written, seen);
    OwnersWritten(img, rule, grid, values, origins, masked, nodata, layer, keys, written);
  }

  lemma OwnersWritten<T(!new)>(img: seq<seq<T>>, rule: Rule<T>, grid: seq<seq<nat>>, values: seq<T>,
                               origins: seq<Pixel>, masked: bool, nodata: T, layer: seq<Feature<T>>, keys: seq<nat>,
                               written: set<nat>)
    requires IsGrid(img, rule, grid) && Origins(img, rule, grid, values, origins) && ValidRule(rule)
    requires Written(layer, keys, written, values, grid, masked, rule, nodata) && InTurn(grid, keys)
    ensures var owners := StartsOf(origins, keys);
            forall i, j :: 0 <= i < j < |owners| ==> WrittenBefore(img, rule, owners[i], owners[j])
  {
    hide Outline, Origins, IsGrid, Occurs, Precedes, WrittenBefore, ValidRule;
    var owners := StartsOf(origins, keys);
    forall i, j | 0 <= i < j < |owners|
      ensures WrittenBefore(img, rule, owners[i], owners[j])
    {
      OwnersInOrder(img, rule, grid, values, origins, keys[i], keys[j]);
    }
  }

  lemma OriginsBelow<T>(img: seq<seq<T>>, rule: Rule<T>, grid: seq<seq<nat>>, values: seq<T>, origins: seq<Pixel>)
    requires Origins(img, rule, grid, values, origins)
    ensures forall p :: InLines(grid, p) ==> At(grid, p) < |values|
  {
  }

  /** The first pass: an enumerator that knows the final ids. */
  method FirstPass<T(!new)>(src: seq<seq<T>>, xSize: nat, mask: Option<seq<seq<int>>>, nodata: T, rule: Rule<T>,
                            lineId0: array<int>, lineId1: array<int>)
    returns (firstEnum: GDALRasterPolygonEnumerator<T>)
    requires ValidRule(rule) && (forall y :: 0 <= y < |src| ==> |src[y]| == xSize)
    requires mask.Some? ==> SameShape(src, mask.value)
    requires lineId0 != lineId1 && lineId0.Length == lineId1.Length == xSize + 2
    modifies lineId0, lineId1
    ensures fresh(firstEnum) && firstEnum.Valid() && firstEnum.Flat()
    ensures firstEnum.rule == rule && firstEnum.lines == Masked(src, mask, nodata)
  {
    hide Enumerated, RootsAre, RawMerges, Masked;
    ghost var img := Masked(src, mask, nodata);
    firstEnum := new GDALRasterPolygonEnumerator(rule);
    var lastLineId, thisLineId := lineId0, lineId1;
    var lastLineVal := None;
    var row := 0;
    while row < |src|
      invariant fresh(firstEnum) && {lastLineId, thisLineId} == {lineId0, lineId1} && lastLineId != thisLineId
      invariant Replaying(firstEnum, rule, img, row, lastLineVal, lastLineId, 0)
    {
      var thisLineVal := ReadMasked(src, mask, nodata, row);
      NextLineIds(firstEnum, lastLineVal, thisLineVal, lastLineId, thisLineId, 0, rule, img, row);
      lastLineVal := Some(thisLineVal);
      lastLineId, thisLineId := thisLineId, lastLineId;
      row := row + 1;
    }
    assert img[..row] == img;
    firstEnum.CompleteMerges();
  }

  method ReadMasked<T>(src: seq<seq<T>>, mask: Option<seq<seq<int>>>, nodata: T, row: nat) returns (line: seq<T>)
    requires mask.Some? ==> SameShape(src, mask.value)
    requires row < |src|
    ensures line == Masked(src, mask, nodata)[row]
  {
    line := src[row];
    if mask.Some? {
      line := GPMaskImageData(mask.value[row], line, nodata);
    }
  }

  ghost function GridOf<T(!new)>(e: GDALRasterPolygonEnumerator<T>): seq<seq<nat>>
    reads e
  {
    FinalGrid(e.polyIdMap, e.lineIds)
  }

  /** A line buffer that holds no polygon at all. */
  method BlankLine(lineId: array<int>, ghost map_: seq<nat>, ghost grid: seq<seq<nat>>, ghost y: int)
    requires y == -1 || y == |grid|
    modifies lineId
    ensures HoldsLine(lineId, map_, grid, y)
  {
    for col := 0 to lineId.Length
      invariant forall i :: 0 <= i < col ==> lineId[i] == -1
    {
      lineId[col] := -1;
    }
  }

  /** A line that has been given its ids again, between two blank cells. */
  lemma LineHeld<T(!new)>(e: GDALRasterPolygonEnumerator<T>, lineId: array<int>, xSize: nat, y: nat)
    requires e.Valid() && e.Flat() && y < |e.lines| && RowsOf(GridOf(e), xSize) && |e.lineIds| == |e.lines|
    requires lineId.Length == xSize + 2 && lineId[0] == -1 && lineId[xSize + 1] == -1
    requires lineId[1..1 + xSize] == e.lineIds[y]
    ensures HoldsLine(lineId, e.polyIdMap, GridOf(e), y)
  {
    FinalGridIsGrid(e);
    hide Enumerated, RootsAre, RawMerges, IsGrid, FinalGrid;
    forall i | 0 <= i < lineId.Length
      ensures -1 <= lineId[i] < |e.polyIdMap|
      ensures Label(GridOf(e), i - 1, y) == if lineId[i] == -1 then -1 else e.polyIdMap[lineId[i]]
    {
      if 1 <= i <= xSize {
        assert lineId[1..1 + xSize][i - 1] == e.lineIds[y][i - 1];
        assert InLines(e.lineIds, Pixel(i - 1, y));
      }
    }
  }

  lemma BlankEnds(lineId: array<int>, xSize: nat, map_: seq<nat>, grid: seq<seq<nat>>, y: int)
    requires lineId.Length == xSize + 2 && RowsOf(grid, xSize) && HoldsLine(lineId, map_, grid, y)
    ensures lineId[0] == -1 && lineId[xSize + 1] == -1
  {
    assert Label(grid, 0 - 1, y) == -1;
    assert Label(grid, xSize + 1 - 1, y) == -1;
  }

  /** What the second pass has collected and written when it comes to line row. */
  ghost predicate Gathered<T>(polys: array<RPolygonF?<T>>, values: seq<T>, grid: seq<seq<nat>>, xSize: nat, row: nat,
                              layer: seq<Feature<T>>, masked: bool, rule: Rule<T>, nodata: T,
                              keys: seq<nat>, written: set<nat>, seen: set<Edge>)
    reads polys, Objects(polys)
  {
    && Collected(polys, values, grid, written, seen)
    && Written(layer, keys, written, values, grid, masked, rule, nodata)
    && SeenTo(xSize, seen, row, 0) && Finished(grid, written, row) && OnTurn(grid, keys, written, row - 1)
  }

  lemma NothingGathered<T>(polys: array<RPolygonF?<T>>, values: seq<T>, grid: seq<seq<nat>>, xSize: nat, masked: bool,
                           rule: Rule<T>, nodata: T)
    requires polys.Length == |values| && forall k :: 0 <= k < polys.Length ==> polys[k] == null
    ensures Gathered(polys, values, grid, xSize, 0, [], masked, rule, nodata, [], {}, {})
  {
    forall k: nat | Occurs(grid, k)
      ensures Turn(|grid|, Bottom(grid, k)) > -1
    {
      BottomIs(grid, k);
    }
  }

  lemma StillFinished(grid: seq<seq<nat>>, written: set<nat>, y: int)
    requires Finished(grid, written, y)
    ensures Finished(grid, written, y + 1)
  {
  }

  lemma GridReady<T(!new)>(e: GDALRasterPolygonEnumerator<T>, xSize: nat)
    requires e.Valid() && e.Flat() && forall y :: 0 <= y < |e.lines| ==> |e.lines[y]| == xSize
    ensures IsGrid(e.lines, e.rule, GridOf(e)) && Intervals(GridOf(e)) && RowsOf(GridOf(e), xSize)
    ensures |GridOf(e)| == |e.lines| == |e.lineIds| && |e.polyIdMap| == |e.polyValue|
    ensures Origins(e.lines, e.rule, GridOf(e), e.polyValue, e.origin)
  {
    FinalGridIsGrid(e);
    OriginsEstablished(e);
    GridIntervals(e.lines, e.rule, GridOf(e));
    IdsBelow(e);
  }

  /** Fetches the ids of line row again, or blanks the buffer below the last line. */
  method LineAgain<T(!new)>(src: seq<seq<T>>, xSize: nat, mask: Option<seq<seq<int>>>, nodata: T,
                            firstEnum: GDALRasterPolygonEnumerator<T>, secondEnum: GDALRasterPolygonEnumerator<T>,
                            lastLineVal: Option<seq<T>>, lastLineId: array<int>, thisLineId: array<int>, row: nat,
                            ghost rule: Rule<T>)
    returns (thisLineVal: Option<seq<T>>)
    requires mask.Some? ==> SameShape(src, mask.value)
    requires forall y :: 0 <= y < |src| ==> |src[y]| == xSize
    requires firstEnum.Valid() && firstEnum.Flat() && firstEnum.rule == rule &&
             firstEnum.lines == Masked(src, mask, nodata)
    requires RowsOf(GridOf(firstEnum), xSize) && |GridOf(firstEnum)| == |src|
    requires secondEnum != firstEnum && row <= |src| &&
             Replaying(secondEnum, rule, Masked(src, mask, nodata), row, lastLineVal, lastLineId, 1)
    requires lastLineId != thisLineId && lastLineId.Length == thisLineId.Length == xSize + 2
    requires thisLineId[0] == -1 && thisLineId[xSize + 1] == -1
    requires |secondEnum.polyIdMap| <= |firstEnum.polyIdMap|
    modifies secondEnum, thisLineId
    ensures HoldsLine(thisLineId, firstEnum.polyIdMap, GridOf(firstEnum), row)
    ensures row < |src| ==> Replaying(secondEnum, rule, Masked(src, mask, nodata), row + 1, thisLineVal, thisLineId, 1)
    ensures |secondEnum.polyIdMap| <= |firstEnum.polyIdMap|
    ensures row == |src| ==> secondEnum.polyIdMap == old(secondEnum.polyIdMap)
    ensures row + 1 == |src| ==> |secondEnum.polyIdMap| == |firstEnum.polyIdMap|
    ensures old(row == |src| ==> |secondEnum.polyIdMap| == |firstEnum.polyIdMap|)
        ==> LaterOnly(GridOf(firstEnum), |secondEnum.polyIdMap|, row)
  {
    hide Enumerated, RootsAre, RawMerges, Masked, HoldsLine, FinalGrid, LaterOnly;
    if row == |src| {
      NoLaterIds(firstEnum, row);
      BlankLine(thisLineId, firstEnum.polyIdMap, GridOf(firstEnum), row);
      thisLineVal := None;
    } else {
      var line := ReadMasked(src, mask, nodata, row);
      ReplayLine(firstEnum, secondEnum, lastLineVal, line, lastLineId, thisLineId, 1, rule,
                 Masked(src, mask, nodata), row);
      IdsBelow(firstEnum);
      LineHeld(firstEnum, thisLineId, xSize, row);
      LaterIds(firstEnum, secondEnum, row);
      thisLineVal := Some(line);
      if row + 1 == |src| {
        SameIdCount(firstEnum, secondEnum);
      }
    }
  }

  /** The polygons whose final id is still to be given out reach further down. */
  lemma LaterIds<T(!new)>(e: GDALRasterPolygonEnumerator<T>, f: GDALRasterPolygonEnumerator<T>, row: nat)
    requires e.Valid() && e.Flat() && f.Valid() && e.rule == f.rule && row < |e.lines| && f.lines == e.lines[..row + 1]
    ensures LaterOnly(GridOf(e), |f.polyIdMap|, row)
  {
    OriginsEstablished(e);
    hide Enumerated, RootsAre, RawMerges, IsRootPixel, Bottom, FinalGrid;
    forall k: nat | |f.polyIdMap| <= k && Occurs(GridOf(e), k)
      ensures Bottom(GridOf(e), k) > row
    {
      var p :| InLines(GridOf(e), p) && At(GridOf(e), p) == k;
      OriginId(e, k);
      GivenOutLater(e, f, row, e.origin[k]);
      BottomIs(GridOf(e), k);
    }
  }

  lemma OriginId<T(!new)>(e: GDALRasterPolygonEnumerator<T>, k: nat)
    requires e.Valid() && k < |e.polyValue|
    ensures k < |e.origin| && InLines(e.lineIds, e.origin[k]) && At(e.lineIds, e.origin[k]) == k
  {
    hide RootsAre, RawMerges, RawIds;
  }

  lemma NoLaterIds<T(!new)>(e: GDALRasterPolygonEnumerator<T>, row: nat)
    requires e.Valid() && e.Flat()
    ensures LaterOnly(GridOf(e), |e.polyIdMap|, row)
  {
    OriginsEstablished(e);
    IdsBelow(e);
    hide Enumerated, RootsAre, RawMerges, IsRootPixel, Bottom, FinalGrid;
  }

  lemma SameIdCount<T(!new)>(e: GDALRasterPolygonEnumerator<T>, f: GDALRasterPolygonEnumerator<T>)
    requires e.Valid() && f.Valid() && e.rule == f.rule && f.lines == e.lines[..|e.lines|]
    ensures |e.polyIdMap| == |f.polyIdMap|
  {
    assert f.lines == e.lines;
  }

  /** Adds the edges of line row and, after every eighth line, writes polygons out. */
  method CollectLine<T>(thisLineId: array<int>, lastLineId: array<int>, polyIdMap: seq<nat>, polyValues: seq<T>,
                        polys: array<RPolygonF?<T>>, xSize: nat, row: nat, n: nat, layer: seq<Feature<T>>,
                        masked: bool, rule: Rule<T>, nodata: T,
                        ghost grid: seq<seq<nat>>, ghost keys: seq<nat>, ghost written: set<nat>, ghost seen: set<Edge>)
    returns (layer': seq<Feature<T>>, ghost keys': seq<nat>, ghost written': set<nat>, ghost seen': set<Edge>)
    requires thisLineId.Length == lastLineId.Length == xSize + 2
    requires HoldsLine(thisLineId, polyIdMap, grid, row) && HoldsLine(lastLineId, polyIdMap, grid, row - 1)
    requires |polyIdMap| == |polyValues| && IsFlat(polyIdMap) && n <= polys.Length
    requires RowsOf(grid, xSize) && Intervals(grid)
    requires Gathered(polys, polyValues, grid, xSize, row, layer, masked, rule, nodata, keys, written, seen)
    requires row <= |grid| && LaterOnly(grid, n, row)
    modifies polys, Objects(polys)
    ensures Gathered(polys, polyValues, grid, xSize, row + 1, layer', masked, rule, nodata, keys', written', seen')
    ensures fresh(Objects(polys) - old(Objects(polys)))
    ensures row % 8 == 7 ==> Flushed(polys, n, row)
  {
    hide Collected, Written, SeenTo, Finished, Intervals, HoldsLine, RowsOf, Flushed, OnTurn, LaterOnly;
    layer', keys', written' := layer, keys, written;
    seen' := AddLineEdges(thisLineId, lastLineId, polyIdMap, polyValues, polys, xSize, row, grid, written, seen);
    StillFinished(grid, written, row);
    if row % 8 == 7 {
      layer', keys', written' := Flush(polys, n, row, layer, masked, rule, nodata, keys, polyValues, grid, xSize,
                                       written, seen');
    } else {
      NoTurn(grid, keys, written, row);
    }
  }

  lemma StartReplay<T(!new)>(e: GDALRasterPolygonEnumerator<T>, rule: Rule<T>, img: seq<seq<T>>, lineId: array<int>)
    requires e.Valid() && e.lines == [] && e.lineIds == [] && e.rule == rule
    ensures Replaying(e, rule, img, 0, None, lineId, 1)
  {
  }

  /** One line of the second pass, or the blank line below the last one. */
  method NextOfSecondPass<T(!new)>(src: seq<seq<T>>, xSize: nat, mask: Option<seq<seq<int>>>, nodata: T, rule: Rule<T>,
                                   firstEnum: GDALRasterPolygonEnumerator<T>,
                                       secondEnum: GDALRasterPolygonEnumerator<T>,
                                   polys: array<RPolygonF?<T>>, lastLineVal: Option<seq<T>>, lastLineId: array<int>,
                                   thisLineId: array<int>, row: nat, layer: seq<Feature<T>>,
                                   ghost keys: seq<nat>, ghost written: set<nat>, ghost seen: set<Edge>)
    returns (lineVal: Option<seq<T>>, layer': seq<Feature<T>>,
             ghost keys': seq<nat>, ghost written': set<nat>, ghost seen': set<Edge>)
    requires (mask.Some? ==> SameShape(src, mask.value)) && forall y :: 0 <= y < |src| ==> |src[y]| == xSize
    requires firstEnum.Valid() && firstEnum.Flat() && firstEnum.rule == rule &&
             firstEnum.lines == Masked(src, mask, nodata)
    requires RowsOf(GridOf(firstEnum), xSize) && Intervals(GridOf(firstEnum)) && |GridOf(firstEnum)| == |src|
    requires polys.Length == |firstEnum.polyIdMap| == |firstEnum.polyValue|
    requires secondEnum != firstEnum && row <= |src| && |secondEnum.polyIdMap| <= |firstEnum.polyIdMap|
    requires row == |src| ==> |secondEnum.polyIdMap| == |firstEnum.polyIdMap|
    requires Replaying(secondEnum, rule, Masked(src, mask, nodata), row, lastLineVal, lastLineId, 1)
    requires lastLineId != thisLineId && lastLineId.Length == thisLineId.Length == xSize + 2
    requires thisLineId[0] == -1 && thisLineId[xSize + 1] == -1
    requires HoldsLine(lastLineId, firstEnum.polyIdMap, GridOf(firstEnum), row - 1)
    requires Gathered(polys, firstEnum.polyValue, GridOf(firstEnum), xSize, row, layer, mask.Some?, rule, nodata,
                      keys, written, seen)
    modifies secondEnum, thisLineId, polys, Objects(polys)
    ensures fresh(Objects(polys) - old(Objects(polys)))
    ensures HoldsLine(thisLineId, firstEnum.polyIdMap, GridOf(firstEnum), row)
    ensures row < |src| ==> Replaying(secondEnum, rule, Masked(src, mask, nodata), row + 1, lineVal, thisLineId, 1)
    ensures |secondEnum.polyIdMap| <= |firstEnum.polyIdMap|
    ensures row == |src| ==> secondEnum.polyIdMap == old(secondEnum.polyIdMap)
    ensures row + 1 == |src| ==> |secondEnum.polyIdMap| == |firstEnum.polyIdMap|
    ensures lastLineId[0] == -1 && lastLineId[xSize + 1] == -1
    ensures Gathered(polys, firstEnum.polyValue, GridOf(firstEnum), xSize, row + 1, layer', mask.Some?, rule, nodata,
                     keys', written', seen')
  {
    hide Enumerated, RootsAre, RawMerges, Masked, Gathered, Intervals, FinalGrid, IsBoundary, HoldsLine, Label,
        Replaying, RowsOf, LaterOnly, OnTurn;
    BlankEnds(lastLineId, xSize, firstEnum.polyIdMap, GridOf(firstEnum), row - 1);
    lineVal := LineAgain(src, xSize, mask, nodata, firstEnum, secondEnum, lastLineVal, lastLineId, thisLineId, row,
                         rule);
    layer', keys', written', seen' :=
      CollectLine(thisLineId, lastLineId, firstEnum.polyIdMap, firstEnum.polyValue, polys, xSize, row,
                  |secondEnum.polyIdMap|, layer, mask.Some?, rule, nodata, GridOf(firstEnum), keys, written, seen);
  }

  /** The second pass: collects the edges line by line and writes polygons out. */
  method SecondPass<T(!new)>(src: seq<seq<T>>, xSize: nat, mask: Option<seq<seq<int>>>, nodata: T, rule: Rule<T>,
                             firstEnum: GDALRasterPolygonEnumerator<T>, polys: array<RPolygonF?<T>>,
                             lineId0: array<int>, lineId1: array<int>)
    returns (n: nat, layer: seq<Feature<T>>, ghost keys: seq<nat>, ghost written: set<nat>, ghost seen: set<Edge>)
    requires ValidRule(rule) && (forall y :: 0 <= y < |src| ==> |src[y]| == xSize)
    requires mask.Some? ==> SameShape(src, mask.value)
    requires firstEnum.Valid() && firstEnum.Flat() && firstEnum.rule == rule &&
             firstEnum.lines == Masked(src, mask, nodata)
    requires RowsOf(GridOf(firstEnum), xSize) && Intervals(GridOf(firstEnum)) && |GridOf(firstEnum)| == |src|
    requires polys.Length == |firstEnum.polyIdMap| == |firstEnum.polyValue|
    requires forall k :: 0 <= k < polys.Length ==> polys[k] == null
    requires lineId0 != lineId1 && lineId0.Length == lineId1.Length == xSize + 2
    modifies polys, lineId0, lineId1
    ensures n == polys.Length && fresh(Objects(polys))
    ensures Collected(polys, firstEnum.polyValue, GridOf(firstEnum), written, seen)
    ensures Written(layer, keys, written, firstEnum.polyValue, GridOf(firstEnum), mask.Some?, rule, nodata)
    ensures SeenTo(xSize, seen, |GridOf(firstEnum)| + 1, 0)
    ensures OnTurn(GridOf(firstEnum), keys, written, |GridOf(firstEnum)|)
  {
    hide Enumerated, RootsAre, RawMerges, Masked, Gathered, Intervals, FinalGrid, IsBoundary, HoldsLine, Label,
        Replaying, RowsOf, LaterOnly, OnTurn, Collected, Written, SeenTo, Finished;
    ghost var img := Masked(src, mask, nodata);
    ghost var grid := GridOf(firstEnum);
    var map_, values := firstEnum.polyIdMap, firstEnum.polyValue;
    var lastLineId, thisLineId := lineId0, lineId1;
    thisLineId[0], thisLineId[xSize + 1] := -1, -1;
    BlankLine(lastLineId, map_, grid, -1);
    var secondEnum := new GDALRasterPolygonEnumerator(rule);
    layer, keys, written, seen := [], [], {}, {};
    NothingGathered(polys, values, grid, xSize, mask.Some?, rule, nodata);
    var lastLineVal: Option<seq<T>> := None;
    StartReplay(secondEnum, rule, img, lastLineId);
    if |src| == 0 {
      SameIdCount(firstEnum, secondEnum);
    }
    var row := 0;
    while row < |src| + 1
      invariant fresh(secondEnum) && secondEnum != firstEnum && fresh(Objects(polys)) && row <= |src| + 1
      invariant lastLineId != thisLineId && {lastLineId, thisLineId} == {lineId0, lineId1}
      invariant row <= |src| ==> Replaying(secondEnum, rule, img, row, lastLineVal, lastLineId, 1)
      invariant |secondEnum.polyIdMap| <= |map_| && (row >= |src| ==> |secondEnum.polyIdMap| == |map_|)
      invariant thisLineId[0] == -1 && thisLineId[xSize + 1] == -1
      invariant HoldsLine(lastLineId, map_, grid, row - 1)
      invariant Gathered(polys, values, grid, xSize, row, layer, mask.Some?, rule, nodata, keys, written, seen)
    {
      lastLineVal, layer, keys, written, seen :=
        NextOfSecondPass(src, xSize, mask, nodata, rule, firstEnum, secondEnum, polys, lastLineVal, lastLineId,
                         thisLineId,
                         row, layer, keys, written, seen);
      lastLineId, thisLineId := thisLineId, lastLineId;
      row := row + 1;
    }
    n := |secondEnum.polyIdMap|;
    GatheredAll(polys, values, grid, xSize, row, layer, mask.Some?, rule, nodata, keys, written, seen);
  }

  lemma GatheredAll<T>(polys: array<RPolygonF?<T>>, values: seq<T>, grid: seq<seq<nat>>, xSize: nat, row: nat,
                       layer: seq<Feature<T>>, masked: bool, rule: Rule<T>, nodata: T,
                       keys: seq<nat>, written: set<nat>, seen: set<Edge>)
    requires Gathered(polys, values, grid, xSize, row, layer, masked, rule, nodata, keys, written, seen)
    ensures Collected(polys, values, grid, written, seen)
    ensures Written(layer, keys, written, values, grid, masked, rule, nodata) && SeenTo(xSize, seen, row, 0)
    ensures OnTurn(grid, keys, written, row - 1)
  {
    hide OnTurn, Collected, Written, SeenTo, Finished;
  }

  /** Turns the polygons of a raster into features. */
  method GDALFPolygonize<T(!new)>(src: seq<seq<T>>, xSize: nat, mask: Option<seq<seq<int>>>, nodata: T, rule: Rule<T>)
    returns (layer: seq<Feature<T>>)
    requires ValidRule(rule) && (forall y :: 0 <= y < |src| ==> |src[y]| == xSize)
    requires mask.Some? ==> SameShape(src, mask.value)
    ensures exists owners, dropped :: PolygonsOf(Masked(src, mask, nodata), rule, mask.Some?, nodata, layer, owners,
                                                 dropped)
  {
    hide Enumerated, RootsAre, RawMerges, Masked, Collected, Written, SeenTo, Finished, Intervals, IsGrid, FinalGrid,
        IsBoundary, HoldsLine, Label;
    ghost var img := Masked(src, mask, nodata);
    var lastLineId, thisLineId := new int[xSize + 2], new int[xSize + 2];
    var firstEnum := FirstPass(src, xSize, mask, nodata, rule, lastLineId, thisLineId);
    ghost var grid := GridOf(firstEnum);
    GridReady(firstEnum, xSize);
    var polys := new RPolygonF?<T>[|firstEnum.polyIdMap|](_ => null);
    var n;
    ghost var keys, written, seen;
    n, layer, keys, written, seen := SecondPass(src, xSize, mask, nodata, rule, firstEnum, polys, lastLineId,
                                                thisLineId);
    layer, keys, written := Cleanup(polys, n, layer, mask.Some?, rule, nodata, keys, firstEnum.polyValue, grid,
                                    xSize, written, seen);
    ghost var owners, dropped := WrittenIsPolygons(img, rule, grid, xSize, firstEnum.polyValue, firstEnum.origin,
                                                   mask.Some?,
                                                   nodata, layer, keys, written, seen);
  }
}

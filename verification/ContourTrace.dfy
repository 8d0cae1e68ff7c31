/** The segments of the contour lines in one pixel: the rectangles it is made of, and where levels cross their edges. */
module ContourTraces {
  import opened ContourItems
  import opened Numbers
  import opened Wrappers

  const FUDGE_EXACT := 0.001
  const DEFAULT_NODATA := -1000000.0

  ghost function Segments(calls: seq<Call>): (r: seq<Segment>)
    ensures |r| == |calls| && forall i :: 0 <= i < |r| ==> r[i] == calls[i].segment
  {
    seq(|calls|, i requires 0 <= i < |calls| => calls[i].segment)
  }

  lemma SegmentsConcat(calls: seq<Call>, calls': seq<Call>)
    ensures Segments(calls + calls') == Segments(calls) + Segments(calls')
  {
  }

  datatype Corner = Corner(value: real, at: Point)

  datatype Rect = Rect(ul: Corner, ll: Corner, lr: Corner, ur: Corner)

  // ---------------------------------------------------------------------
  // Where a level crosses the edges of a rectangle.
  // ---------------------------------------------------------------------

  /** The point at a part of the way from p to q. */
  function Mix(p: Point, q: Point, ratio: real): Point {
    Point(p.x * (1.0 - ratio) + q.x * ratio, p.y * (1.0 - ratio) + q.y * ratio)
  }

  /** Whether a level crosses the edge from a to b; next is the value of the corner after b. */
  predicate Crosses(a: Corner, b: Corner, next: real, level: real) {
    a.value < level <= b.value || a.value > level >= b.value || (a.value == level == b.value && next != level)
  }

  /** The point at which it does. */
  function CrossingPoint(a: Corner, b: Corner, next: real, level: real): Point
    requires Crosses(a, b, next, level)
  {
    if a.value < level then Mix(a.at, b.at, (level - a.value) / (b.value - a.value))
    else if a.value > level then Mix(b.at, a.at, (level - b.value) / (a.value - b.value))
    else b.at
  }

  function Crossing(a: Corner, b: Corner, next: real, level: real): (r: seq<Point>)
    ensures |r| == if Crosses(a, b, next, level) then 1 else 0
  {
    if Crosses(a, b, next, level) then [CrossingPoint(a, b, next, level)] else []
  }

  /** The edges of a rectangle that a level crosses. */
  datatype Edges = Edges(left: bool, bottom: bool, right: bool, top: bool) {
    function Number(): nat {
      (if left then 1 else 0) + (if bottom then 1 else 0) + (if right then 1 else 0) + (if top then 1 else 0)
    }
  }

  function CrossedEdges(r: Rect, level: real): Edges {
    Edges(Crosses(r.ul, r.ll, r.lr.value, level), Crosses(r.ll, r.lr, r.ur.value, level),
          Crosses(r.lr, r.ur, r.ul.value, level), Crosses(r.ur, r.ul, r.ll.value, level))
  }

  /** The points at which it does, in the order of the edges. */
  function Crossings(r: Rect, level: real): (p: seq<Point>)
    ensures |p| == CrossedEdges(r, level).Number()
  {
    Crossing(r.ul, r.ll, r.lr.value, level) + Crossing(r.ll, r.lr, r.ur.value, level) +
    Crossing(r.lr, r.ur, r.ul.value, level) + Crossing(r.ur, r.ul, r.ll.value, level)
  }

  /** The level does not go through a corner. */
  predicate OffLevel(r: Rect, level: real) {
    r.ul.value != level && r.ll.value != level && r.lr.value != level && r.ur.value != level
  }

  /** Which side is high along the first segment, judged by two corners on opposite sides of it. */
  function FirstLeftHigh(r: Rect, level: real): bool {
    var e := CrossedEdges(r, level);
    if e.left && e.bottom then r.ur.value > r.ll.value
    else if e.left || (e.bottom && e.right) then r.ul.value > r.lr.value
    else r.ll.value > r.ur.value
  }

  /** A level that goes along an edge is traced from one side only. */
  predicate Skipped(r: Rect, level: real) {
    var e := CrossedEdges(r, level);
    || (e == Edges(true, false, false, true) && r.ul.value == level == r.ll.value)
    || (e == Edges(false, false, true, true) && r.ur.value == level == r.ul.value)
  }

  /** The segments of a level in a rectangle. */
  function LevelCalls(r: Rect, level: real): seq<Call> {
    var p := Crossings(r, level);
    (if |p| < 2 || Skipped(r, level) then [] else [Call(Segment(level, p[0], p[1]), FirstLeftHigh(r, level))]) +
    (if |p| < 4 || r.ur.value == level == r.ul.value then []
     else [Call(Segment(level, p[2], p[3]), r.lr.value > r.ur.value)])
  }

  /** Appends the point at which a level crosses an edge. */
  method Intersect(a: Corner, b: Corner, next: real, level: real, points: array<Point>, n: nat) returns (n': nat)
    requires n < points.Length
    modifies points
    ensures n' == n + |Crossing(a, b, next, level)| <= points.Length
    ensures points[..n'] == old(points[..n]) + Crossing(a, b, next, level)
  {
    hide Mix;
    n' := n;
    if a.value < level && b.value >= level {
      var ratio := (level - a.value) / (b.value - a.value);
      points[n] := Mix(a.at, b.at, ratio);
      n' := n + 1;
    } else if a.value > level && b.value <= level {
      var ratio := (level - b.value) / (a.value - b.value);
      points[n] := Mix(b.at, a.at, ratio);
      n' := n + 1;
    } else if a.value == level && b.value == level && next != level {
      points[n] := b.at;
      n' := n + 1;
    }
    assert n' == n + 1 ==> points[..n'] == old(points[..n]) + [points[n]];
    assert points[..n] == old(points[..n]);
  }

  /** The segments of a level in a rectangle, by the edges that it crosses. */
  method TraceLevel(r: Rect, level: real) returns (calls: seq<Call>)
    ensures calls == LevelCalls(r, level)
  {
    hide Crossing, Crosses;
    calls := [];
    var points := new Point[4](_ => r.ul.at);
    var n1 := Intersect(r.ul, r.ll, r.lr.value, level, points, 0);
    var n2 := Intersect(r.ll, r.lr, r.ur.value, level, points, n1);
    var n3 := Intersect(r.lr, r.ur, r.ul.value, level, points, n2);
    var n := Intersect(r.ur, r.ul, r.ll.value, level, points, n3);
    assert points[..n] == Crossings(r, level);
    if n >= 2 {
      var first := Segment(level, points[0], points[1]);
      if n1 == 1 && n2 == 2 {
        calls := [Call(first, r.ur.value > r.ll.value)];
      } else if n1 == 1 && n3 == 2 {
        calls := [Call(first, r.ul.value > r.lr.value)];
      } else if n1 == 1 && n == 2 {
        if !(r.ul.value == level && r.ll.value == level) {
          calls := [Call(first, r.ul.value > r.lr.value)];
        }
      } else if n2 == 1 && n3 == 2 {
        calls := [Call(first, r.ul.value > r.lr.value)];
      } else if n2 == 1 && n == 2 {
        calls := [Call(first, r.ll.value > r.ur.value)];
      } else if n3 == 1 && n == 2 {
        if !(r.ur.value == level && r.ul.value == level) {
          calls := [Call(first, r.ll.value > r.ur.value)];
        }
      } else {
        assert false;
      }
    }
    if n == 4 {
      if !(r.ur.value == level && r.ul.value == level) {
        calls := calls + [Call(Segment(level, points[2], points[3]), r.lr.value > r.ur.value)];
      }
    }
  }

  // ---------------------------------------------------------------------
  // The rectangles of a pixel and the levels in them.
  // ---------------------------------------------------------------------

  function Lowest(r: Rect): real {
    MinReal(MinReal(r.ul.value, r.ur.value), MinReal(r.ll.value, r.lr.value))
  }

  function Highest(r: Rect): real {
    MaxReal(MaxReal(r.ul.value, r.ur.value), MaxReal(r.ll.value, r.lr.value))
  }

  /** The values around a pixel. */
  datatype Values = Values(ul: real, ll: real, lr: real, ur: real)

  /** The size of the raster, the value that stands for nodata, and the levels: offset and all multiples of interval. */
  datatype Setup = Setup(width: nat, height: nat, noData: Option<real>, interval: real, offset: real) {
    predicate Valid() {
      interval != 0.0 && width > 0
    }

    function Level(k: int): real {
      k as real * interval + offset
    }

    /** The number of the first level that is not below the rectangle. */
    function StartLevel(r: Rect): int
      requires Valid()
    {
      -(-(Lowest(r) - offset) / interval).Floor
    }

    /** The number of the last level that is not above it. */
    function EndLevel(r: Rect): int
      requires Valid()
    {
      ((Highest(r) - offset) / interval).Floor
    }

    /** The segments of n levels in a rectangle. */
    function LevelsCalls(r: Rect, start: int, n: nat): seq<Call> {
      if n == 0 then [] else LevelsCalls(r, start, n - 1) + LevelCalls(r, Level(start + n - 1))
    }

    /** The segments of all levels in a rectangle. */
    function RectCalls(r: Rect): seq<Call>
      requires Valid()
    {
      if StartLevel(r) > EndLevel(r) then [] else LevelsCalls(r, StartLevel(r), EndLevel(r) + 1 - StartLevel(r))
    }

    /** Without a nodata value, a fixed one is compared with when pixels are subdivided. */
    predicate Good(v: real) {
      v != if noData.Some? then noData.value else DEFAULT_NODATA
    }

    /** What the pixels around position i of a line are; beyond the ends they are those at the ends. */
    function ValuesAt(last: seq<real>, line: seq<real>, i: nat): Values
      requires Valid() && |last| == |line| == width && i <= width
    {
      var left, right := if i == 0 then 0 else i - 1, if i < width then i else width - 1;
      Values(last[left], line[left], line[right], last[right])
    }

    /** The mean of the good values. */
    function Center(v: Values): real
      requires Good(v.ul) || Good(v.ll) || Good(v.lr) || Good(v.ur)
    {
      ((if Good(v.ul) then v.ul else 0.0) + (if Good(v.ll) then v.ll else 0.0) +
       (if Good(v.lr) then v.lr else 0.0) + (if Good(v.ur) then v.ur else 0.0)) /
      ((if Good(v.ul) then 1.0 else 0.0) + (if Good(v.ll) then 1.0 else 0.0) +
       (if Good(v.lr) then 1.0 else 0.0) + (if Good(v.ur) then 1.0 else 0.0))
    }

    /** The mean of a and b if both are good, and otherwise a good one. */
    function Mean(a: real, b: real): real {
      if !Good(a) then b else if Good(b) then (a + b) / 2.0 else a
    }

    /** Whether a pixel is one rectangle; those at the border and those with nodata around are quadrants. */
    predicate Whole(v: Values, y: int, i: nat) {
      && 0 < i < width && 0 < y < height
      && !(noData.Some? && (v.ul == noData.value || v.ll == noData.value || v.lr == noData.value ||
                            v.ur == noData.value))
    }

    function WholeRect(v: Values, y: int, i: nat): Rect {
      var x0, x1, y0, y1 := i as real - 0.5, i as real + 0.5, y as real - 0.5, y as real + 0.5;
      Rect(Corner(v.ul, Point(x0, y0)), Corner(v.ll, Point(x0, y1)),
           Corner(v.lr, Point(x1, y1)), Corner(v.ur, Point(x1, y0)))
    }

    /** The four quadrants of a pixel: upper left, lower left, lower right and upper right. */
    function Quadrant(v: Values, y: int, i: nat, q: nat): Rect
      requires Good(v.ul) || Good(v.ll) || Good(v.lr) || Good(v.ur)
    {
      var x0, x, x1 := i as real - 0.5, i as real, i as real + 0.5;
      var y0, y, y1 := y as real - 0.5, y as real, y as real + 0.5;
      var center := Corner(Center(v), Point(x, y));
      var top := Corner(Mean(v.ul, v.ur), Point(x, y0));
      var left := Corner(Mean(v.ul, v.ll), Point(x0, y));
      var right := Corner(Mean(v.lr, v.ur), Point(x1, y));
      var bottom := Corner(Mean(v.lr, v.ll), Point(x, y1));
      if q == 0 then Rect(Corner(v.ul, Point(x0, y0)), left, center, top)
      else if q == 1 then Rect(left, Corner(v.ll, Point(x0, y1)), bottom, center)
      else if q == 2 then Rect(center, bottom, Corner(v.lr, Point(x1, y1)), right)
      else Rect(top, center, right, Corner(v.ur, Point(x1, y0)))
    }

    /** The quadrants that are in the raster and not anchored at nodata. */
    predicate HasQuadrant(v: Values, y: int, i: nat, q: nat) {
      if q == 0 then Good(v.ul) && i > 0 && y > 0
      else if q == 1 then Good(v.ll) && i > 0 && y < height
      else if q == 2 then Good(v.lr) && i < width && y < height
      else Good(v.ur) && i < width && y > 0
    }

    /** The segments in the first n quadrants of a pixel. */
    function QuadrantCalls(v: Values, y: int, i: nat, n: nat): seq<Call>
      requires Valid() && (Good(v.ul) || Good(v.ll) || Good(v.lr) || Good(v.ur))
    {
      if n == 0 then [] else
      QuadrantCalls(v, y, i, n - 1) +
      if HasQuadrant(v, y, i, n - 1) then RectCalls(Quadrant(v, y, i, n - 1)) else []
    }

    /** The segments in a pixel. */
    function PixelCalls(last: seq<real>, line: seq<real>, y: int, i: nat): seq<Call>
      requires Valid() && |last| == |line| == width && i <= width
    {
      var v := ValuesAt(last, line, i);
      if Whole(v, y, i) then RectCalls(WholeRect(v, y, i))
      else if Good(v.ul) || Good(v.ll) || Good(v.lr) || Good(v.ur) then QuadrantCalls(v, y, i, 4)
      else []
    }

    /** A value on a contour level is moved off it. */
    function Perturbed(v: real): real
      requires Valid()
    {
      var level := (v - offset) / interval;
      if level - level.Floor as real == 0.0 then v + interval * FUDGE_EXACT else v
    }

    /** A line with the values that are exactly on a contour level moved off it. */
    function PerturbedLine(line: seq<real>): (r: seq<real>)
      requires Valid()
      ensures |r| == |line|
    {
      seq(|line|, i requires 0 <= i < |line| => if noData == Some(line[i]) then line[i] else Perturbed(line[i]))
    }

    /** The segments in the first n pixels of a line. */
    ghost function Traced(last: seq<real>, line: seq<real>, y: int, n: nat): seq<Call>
      requires Valid() && |last| == |line| == width && n <= width + 1
    {
      if n == 0 then [] else Traced(last, line, y, n - 1) + PixelCalls(last, line, y, n - 1)
    }

    /** How far down the raster the rectangles of line y reach. */
    function Bottom(y: int): real {
      if y < height then y as real + 0.5 else y as real
    }

    predicate Fits(raster: seq<seq<real>>) {
      Valid() && |raster| == height && forall y :: 0 <= y < |raster| ==> |raster[y]| == width
    }

    /** The segments between the first n lines of a raster; there is a copy of the first line before it. */
    ghost function TracedLines(raster: seq<seq<real>>, n: nat): seq<Call>
      requires Fits(raster) && n <= |raster|
    {
      if n == 0 then [] else
      var line := PerturbedLine(raster[n - 1]);
      var last := if n == 1 then line else PerturbedLine(raster[n - 2]);
      TracedLines(raster, n - 1) + Traced(last, line, n - 1, width + 1)
    }

    /** The segments in a whole raster: between its lines, and between the last one and a copy of it. */
    ghost function TracedRaster(raster: seq<seq<real>>): seq<Call>
      requires Fits(raster)
    {
      TracedLines(raster, height) +
      if height == 0 then [] else
      var line := PerturbedLine(raster[height - 1]);
      Traced(line, PerturbedLine(line), height, width + 1)
    }
  }

  // ---------------------------------------------------------------------
  // What the segments in a rectangle are.
  // ---------------------------------------------------------------------

  /** The point is on the edge from a to b, where the value interpolated between them is the level. */
  ghost predicate OnEdge(a: Corner, b: Corner, level: real, p: Point) {
    exists s: real :: 0.0 <= s <= 1.0 && p == Mix(a.at, b.at, s) && a.value + s * (b.value - a.value) == level
  }

  ghost predicate OnRect(r: Rect, level: real, p: Point) {
    OnEdge(r.ul, r.ll, level, p) || OnEdge(r.ll, r.lr, level, p) || OnEdge(r.lr, r.ur, level, p) ||
        OnEdge(r.ur, r.ul, level, p)
  }

  lemma CrossingIsOnEdge(a: Corner, b: Corner, next: real, level: real)
    requires Crosses(a, b, next, level)
    ensures OnEdge(a, b, level, CrossingPoint(a, b, next, level))
  {
    if a.value < level {
      var s := (level - a.value) / (b.value - a.value);
      RatioInUnit(level - a.value, b.value - a.value);
      assert a.value + s * (b.value - a.value) == level;
    } else if a.value > level {
      var d := (level - b.value) / (a.value - b.value);
      RatioInUnit(level - b.value, a.value - b.value);
      MixReversed(a.at, b.at, d);
      assert a.value + (1.0 - d) * (b.value - a.value) == a.value - (a.value - b.value) + d * (a.value - b.value);
    } else {
      assert Mix(a.at, b.at, 1.0) == b.at;
      assert a.value + 1.0 * (b.value - a.value) == level;
    }
  }

  lemma RatioInUnit(x: real, y: real)
    requires 0.0 <= x <= y && y > 0.0
    ensures 0.0 <= x / y <= 1.0 && x / y * y == x
  {
  }

  lemma MixReversed(p: Point, q: Point, s: real)
    ensures Mix(q, p, s) == Mix(p, q, 1.0 - s)
  {
  }

  /** Both ends of every segment are on the edges of the rectangle, where the level is. */
  lemma EndsAreOnRect(r: Rect, level: real)
    ensures forall c :: c in LevelCalls(r, level) ==>
              c.segment.level == level && OnRect(r, level, c.segment.from) && OnRect(r, level, c.segment.to)
  {
    forall p | p in Crossings(r, level)
      ensures OnRect(r, level, p)
    {
      if p in Crossing(r.ul, r.ll, r.lr.value, level) {
        CrossingIsOnEdge(r.ul, r.ll, r.lr.value, level);
      } else if p in Crossing(r.ll, r.lr, r.ur.value, level) {
        CrossingIsOnEdge(r.ll, r.lr, r.ur.value, level);
      } else if p in Crossing(r.lr, r.ur, r.ul.value, level) {
        CrossingIsOnEdge(r.lr, r.ur, r.ul.value, level);
      } else {
        CrossingIsOnEdge(r.ur, r.ul, r.ll.value, level);
      }
    }
    hide OnRect, Crossings, CrossedEdges, Skipped, FirstLeftHigh;
  }

  predicate RectBetween(r: Rect, top: real, bottom: real) {
    && top <= r.ul.at.y <= bottom && top <= r.ll.at.y <= bottom
    && top <= r.lr.at.y <= bottom && top <= r.ur.at.y <= bottom
  }

  predicate CallBetween(c: Call, top: real, bottom: real) {
    top <= c.segment.from.y <= bottom && top <= c.segment.to.y <= bottom
  }

  lemma EdgeBetween(a: Corner, b: Corner, level: real, p: Point, top: real, bottom: real)
    requires OnEdge(a, b, level, p) && top <= a.at.y <= bottom && top <= b.at.y <= bottom
    ensures top <= p.y <= bottom
  {
    var s :| 0.0 <= s <= 1.0 && p == Mix(a.at, b.at, s) && a.value + s * (b.value - a.value) == level;
    MeanBetween(a.at.y, b.at.y, s, top, bottom);
  }

  lemma MeanBetween(x: real, y: real, s: real, top: real, bottom: real)
    requires 0.0 <= s <= 1.0 && top <= x <= bottom && top <= y <= bottom
    ensures top <= x * (1.0 - s) + y * s <= bottom
  {
    ProductSign(x - top, 1.0 - s);
    ProductSign(y - top, s);
    ProductSign(bottom - x, 1.0 - s);
    ProductSign(bottom - y, s);
  }

  lemma ProductSign(x: real, y: real)
    requires x >= 0.0 && y >= 0.0
    ensures x * y >= 0.0
  {
  }

  /** The segments in a rectangle are nowhere above or below it. */
  lemma CallsBetween(r: Rect, level: real, top: real, bottom: real)
    requires RectBetween(r, top, bottom)
    ensures forall c :: c in LevelCalls(r, level) ==> CallBetween(c, top, bottom)
  {
    EndsAreOnRect(r, level);
    hide LevelCalls, OnEdge;
    forall p | OnRect(r, level, p)
      ensures top <= p.y <= bottom
    {
      if OnEdge(r.ul, r.ll, level, p) {
        EdgeBetween(r.ul, r.ll, level, p, top, bottom);
      } else if OnEdge(r.ll, r.lr, level, p) {
        EdgeBetween(r.ll, r.lr, level, p, top, bottom);
      } else if OnEdge(r.lr, r.ur, level, p) {
        EdgeBetween(r.lr, r.ur, level, p, top, bottom);
      } else {
        EdgeBetween(r.ur, r.ul, level, p, top, bottom);
      }
    }
  }

  /** The rectangles of a pixel of line y. */
  lemma PixelBetween(setup: Setup, v: Values, y: int, i: nat, q: nat)
    ensures setup.Whole(v, y, i) ==> RectBetween(setup.WholeRect(v, y, i), y as real - 0.5, setup.Bottom(y))
    ensures q < 4 && setup.HasQuadrant(v, y, i, q) ==>
              RectBetween(setup.Quadrant(v, y, i, q), y as real - 0.5, setup.Bottom(y))
  {
  }

  /** Two rectangles that share an edge agree on where a level crosses it, if that is not at a corner. */
  lemma SharedEdge(a: Corner, b: Corner, next: real, next': real, level: real)
    requires a.value != level && b.value != level
    ensures Crossing(a, b, next, level) == Crossing(b, a, next', level)
  {
  }

  function Higher(r: Rect, level: real): nat {
    (if r.ul.value > level then 1 else 0) + (if r.ll.value > level then 1 else 0) +
    (if r.lr.value > level then 1 else 0) + (if r.ur.value > level then 1 else 0)
  }

  /** Both ends of one diagonal are higher than the level, both ends of the other one lower. */
  predicate Saddle(r: Rect, level: real) {
    Higher(r, level) == 2 && (r.ul.value > level <==> r.lr.value > level)
  }

  /**
   * A level that goes through no corner crosses no edge, two or four: none if all corners are on one side, four in a
   * saddle; and there is a segment for every two crossings.
   */
  lemma CrossingsArePaired(r: Rect, level: real)
    requires OffLevel(r, level)
    ensures |Crossings(r, level)| == if Higher(r, level) in {0, 4} then 0 else if Saddle(r, level) then 4 else 2
    ensures 2 * |LevelCalls(r, level)| == |Crossings(r, level)|
  {
    hide Crossings, FirstLeftHigh;
  }

  // ---------------------------------------------------------------------
  // Which side of a segment is high.
  // ---------------------------------------------------------------------

  /** Positive if c is to the right of the way from p to q, negative if it is to the left; y grows downward. */
  function Side(p: Point, q: Point, c: Point): real {
    Times(q.x - p.x, c.y - p.y) - Times(q.y - p.y, c.x - p.x)
  }

  /** The corners are those of an upright rectangle. */
  predicate Upright(r: Rect) {
    r.ul.at.x == r.ll.at.x < r.lr.at.x == r.ur.at.x && r.ul.at.y == r.ur.at.y < r.ll.at.y == r.lr.at.y
  }

  /** A corner lies to one side of the segment, and that side is high exactly if the corner is higher than the level. */
  predicate Agrees(call: Call, c: Corner) {
    var side := Side(call.segment.from, call.segment.to, c.at);
    if side < 0.0 then c.value > call.segment.level <==> call.leftHigh
    else side > 0.0 && (c.value < call.segment.level <==> call.leftHigh)
  }

  /** One of -1, 0 and 1. */
  function Sign(x: real): int {
    if x > 0.0 then 1 else if x < 0.0 then -1 else 0
  }

  lemma SignOfTimes(a: real, b: real)
    ensures Sign(Times(a, b)) == Sign(a) * Sign(b)
  {
    if a > 0.0 && b > 0.0 {
      assert a * b > 0.0;
    } else if a > 0.0 && b < 0.0 {
      assert a * -b > 0.0;
    } else if a < 0.0 && b > 0.0 {
      assert -a * b > 0.0;
    } else if a < 0.0 && b < 0.0 {
      assert -a * -b > 0.0;
    }
  }

  lemma SignOfScaled(a: real, b: real, x: real)
    requires b > 0.0 && x == a * b
    ensures Sign(x) == Sign(a)
  {
    SignOfTimes(a, b);
  }

  lemma SideAsProduct(p: Point, q: Point, c: Point)
    ensures c.x == p.x ==> Side(p, q, c) == Times(q.x - p.x, c.y - p.y)
    ensures c.x == q.x ==> Side(p, q, c) == Times(q.x - p.x, c.y - q.y)
    ensures c.y == p.y ==> Side(p, q, c) == Times(q.y - p.y, p.x - c.x)
    ensures c.y == q.y ==> Side(p, q, c) == Times(q.y - p.y, q.x - c.x)
  {
  }

  /** On a line with p or q the sign of a side is that of a product. */
  lemma SideInLine(p: Point, q: Point, c: Point)
    ensures c.x == p.x ==> Sign(Side(p, q, c)) == Sign(q.x - p.x) * Sign(c.y - p.y)
    ensures c.x == q.x ==> Sign(Side(p, q, c)) == Sign(q.x - p.x) * Sign(c.y - q.y)
    ensures c.y == p.y ==> Sign(Side(p, q, c)) == Sign(q.y - p.y) * Sign(p.x - c.x)
    ensures c.y == q.y ==> Sign(Side(p, q, c)) == Sign(q.y - p.y) * Sign(q.x - c.x)
  {
    SideAsProduct(p, q, c);
    hide Side, Sign, Times;
    SignOfTimes(q.x - p.x, c.y - p.y);
    SignOfTimes(q.x - p.x, c.y - q.y);
    SignOfTimes(q.y - p.y, p.x - c.x);
    SignOfTimes(q.y - p.y, q.x - c.x);
  }

  /** Elsewhere it is at least clear if the two products do not have the same sign. */
  lemma SideElsewhere(p: Point, q: Point, c: Point)
    requires var a, b := Sign(q.x - p.x) * Sign(c.y - p.y), Sign(q.y - p.y) * Sign(c.x - p.x);
             a == -b || a == 0 || b == 0
    ensures var a, b := Sign(q.x - p.x) * Sign(c.y - p.y), Sign(q.y - p.y) * Sign(c.x - p.x);
            Sign(Side(p, q, c)) == if a == 0 then -b else a
  {
    hide Times, Sign;
    SignOfTimes(q.x - p.x, c.y - p.y);
    SignOfTimes(q.y - p.y, c.x - p.x);
    SignOfDifference(Times(q.x - p.x, c.y - p.y), Times(q.y - p.y, c.x - p.x));
  }

  lemma SignOfDifference(a: real, b: real)
    requires Sign(a) == -Sign(b) || Sign(a) == 0 || Sign(b) == 0
    ensures Sign(a - b) == if Sign(a) == 0 then -Sign(b) else Sign(a)
  {
  }

  /** Between corners off the level it is crossed within the edge. */
  lemma CrossingIsWithin(a: Corner, b: Corner, next: real, level: real)
    requires Crosses(a, b, next, level) && a.value != level && b.value != level
    ensures var p := CrossingPoint(a, b, next, level);
            && (if a.at.x < b.at.x then a.at.x < p.x < b.at.x else if a.at.x > b.at.x then b.at.x < p.x < a.at.x
                else p.x == a.at.x)
            && (if a.at.y < b.at.y then a.at.y < p.y < b.at.y else if a.at.y > b.at.y then b.at.y < p.y < a.at.y
                else p.y == a.at.y)
  {
    if a.value < level {
      RatioWithinUnit(level - a.value, b.value - a.value);
      MixIsWithin(a.at, b.at, (level - a.value) / (b.value - a.value));
    } else {
      RatioWithinUnit(level - b.value, a.value - b.value);
      MixIsWithin(b.at, a.at, (level - b.value) / (a.value - b.value));
    }
  }

  lemma RatioWithinUnit(x: real, y: real)
    requires 0.0 < x < y
    ensures 0.0 < x / y < 1.0
  {
    var s := x / y;
    assert s * y == x;
    SignOfScaled(s, y, x);
    SignOfScaled(1.0 - s, y, y - x);
  }

  lemma MixIsWithin(p: Point, q: Point, s: real)
    requires 0.0 < s < 1.0
    ensures var m := Mix(p, q, s);
            && (if p.x < q.x then p.x < m.x < q.x else if p.x > q.x then q.x < m.x < p.x else m.x == p.x)
            && (if p.y < q.y then p.y < m.y < q.y else if p.y > q.y then q.y < m.y < p.y else m.y == p.y)
  {
    var m := Mix(p, q, s);
    WithinScaled(p.x, q.x, s, m.x);
    WithinScaled(p.y, q.y, s, m.y);
  }

  lemma WithinScaled(x: real, y: real, s: real, m: real)
    requires 0.0 < s < 1.0 && m == x * (1.0 - s) + y * s
    ensures if x < y then x < m < y else if x > y then y < m < x else m == x
  {
    DistancesFromEnds(x, y, s);
    SignOfScaled(y - x, s, m - x);
    SignOfScaled(y - x, 1.0 - s, y - m);
  }

  lemma DistancesFromEnds(x: real, y: real, s: real)
    ensures x * (1.0 - s) + y * s - x == (y - x) * s
    ensures y - (x * (1.0 - s) + y * s) == (y - x) * (1.0 - s)
  {
  }

  predicate OnLeft(r: Rect, p: Point) {
    p.x == r.ul.at.x && r.ul.at.y < p.y < r.ll.at.y
  }

  predicate OnBottom(r: Rect, p: Point) {
    p.y == r.ll.at.y && r.ll.at.x < p.x < r.lr.at.x
  }

  predicate OnRight(r: Rect, p: Point) {
    p.x == r.lr.at.x && r.ur.at.y < p.y < r.lr.at.y
  }

  predicate OnTop(r: Rect, p: Point) {
    p.y == r.ul.at.y && r.ul.at.x < p.x < r.ur.at.x
  }

  /**
   * The corners that are said to be so, and no others, are to the left of the way from p to q, the others to the
   * right.
   */
  predicate LeftCorners(r: Rect, p: Point, q: Point, ul: bool, ll: bool, lr: bool, ur: bool) {
    && (if ul then Side(p, q, r.ul.at) < 0.0 else Side(p, q, r.ul.at) > 0.0)
    && (if ll then Side(p, q, r.ll.at) < 0.0 else Side(p, q, r.ll.at) > 0.0)
    && (if lr then Side(p, q, r.lr.at) < 0.0 else Side(p, q, r.lr.at) > 0.0)
    && (if ur then Side(p, q, r.ur.at) < 0.0 else Side(p, q, r.ur.at) > 0.0)
  }

  /** The corners that are passed going around from the first edge to the second are to the right. */
  lemma SidesFromLeft(r: Rect, p: Point, q: Point)
    requires Upright(r) && OnLeft(r, p)
    ensures OnBottom(r, q) ==> LeftCorners(r, p, q, true, false, true, true)
    ensures OnRight(r, q) ==> LeftCorners(r, p, q, true, false, false, true)
    ensures OnTop(r, q) ==> LeftCorners(r, p, q, true, false, false, false)
  {
    hide Side;
    SideInLine(p, q, r.ul.at);
    SideInLine(p, q, r.ll.at);
    SideInLine(p, q, r.lr.at);
    SideInLine(p, q, r.ur.at);
    if OnBottom(r, q) {
      SideElsewhere(p, q, r.ur.at);
    } else if OnTop(r, q) {
      SideElsewhere(p, q, r.lr.at);
    }
  }

  lemma SidesFromBottom(r: Rect, p: Point, q: Point)
    requires Upright(r) && OnBottom(r, p)
    ensures OnRight(r, q) ==> LeftCorners(r, p, q, true, true, false, true)
    ensures OnTop(r, q) ==> LeftCorners(r, p, q, true, true, false, false)
  {
    hide Side;
    SideInLine(p, q, r.ul.at);
    SideInLine(p, q, r.ll.at);
    SideInLine(p, q, r.lr.at);
    SideInLine(p, q, r.ur.at);
    if OnRight(r, q) {
      SideElsewhere(p, q, r.ul.at);
    }
  }

  lemma SidesFromRight(r: Rect, p: Point, q: Point)
    requires Upright(r) && OnRight(r, p)
    ensures OnTop(r, q) ==> LeftCorners(r, p, q, true, true, true, false)
  {
    hide Side;
    SideInLine(p, q, r.ul.at);
    SideInLine(p, q, r.ll.at);
    SideInLine(p, q, r.lr.at);
    SideInLine(p, q, r.ur.at);
    if OnTop(r, q) {
      SideElsewhere(p, q, r.ll.at);
    }
  }

  /** Where a level that goes through no corner crosses the edges. */
  lemma CrossingsAreWithin(r: Rect, level: real)
    requires Upright(r) && OffLevel(r, level)
    ensures var e := CrossedEdges(r, level);
            && (e.left ==> OnLeft(r, CrossingPoint(r.ul, r.ll, r.lr.value, level)))
            && (e.bottom ==> OnBottom(r, CrossingPoint(r.ll, r.lr, r.ur.value, level)))
            && (e.right ==> OnRight(r, CrossingPoint(r.lr, r.ur, r.ul.value, level)))
            && (e.top ==> OnTop(r, CrossingPoint(r.ur, r.ul, r.ll.value, level)))
  {
    hide CrossingPoint, Mix;
    var e := CrossedEdges(r, level);
    if e.left {
      CrossingIsWithin(r.ul, r.ll, r.lr.value, level);
    }
    if e.bottom {
      CrossingIsWithin(r.ll, r.lr, r.ur.value, level);
    }
    if e.right {
      CrossingIsWithin(r.lr, r.ur, r.ul.value, level);
    }
    if e.top {
      CrossingIsWithin(r.ur, r.ul, r.ll.value, level);
    }
  }

  /**
   * Where one segment separates the higher corners from the lower ones, all four corners agree with the side that is
   * said to be high.
   */
  lemma LeftIsHigh(r: Rect, level: real)
    requires Upright(r) && OffLevel(r, level) && 1 <= Higher(r, level) <= 3 && !Saddle(r, level)
    ensures |LevelCalls(r, level)| == 1
    ensures var call := LevelCalls(r, level)[0];
            Agrees(call, r.ul) && Agrees(call, r.ll) && Agrees(call, r.lr) && Agrees(call, r.ur)
  {
    CrossingsArePaired(r, level);
    CrossingsAreWithin(r, level);
    var p, q := Crossings(r, level)[0], Crossings(r, level)[1];
    hide Mix, Side, CrossingPoint, Upright;
    if OnLeft(r, p) {
      SidesFromLeft(r, p, q);
    } else if OnBottom(r, p) {
      SidesFromBottom(r, p, q);
    } else {
      SidesFromRight(r, p, q);
    }
  }

  /**
   * In a saddle two segments cut off the lower left and the upper right corner. The second one always says which side
   * is high; the first one does so only if the upper right corner is higher than the lower left one in case that is
   * lower than the level, and not higher in case that is higher.
   */
  lemma SaddleSides(r: Rect, level: real)
    requires Upright(r) && OffLevel(r, level) && Saddle(r, level)
    ensures |LevelCalls(r, level)| == 2
    ensures var call := LevelCalls(r, level)[1];
            LeftCorners(r, call.segment.from, call.segment.to, true, true, true, false)
            && Agrees(call, r.ur) && Agrees(call, r.ul) && Agrees(call, r.lr)
    ensures var call := LevelCalls(r, level)[0];
            LeftCorners(r, call.segment.from, call.segment.to, true, false, true, true)
            && (Agrees(call, r.ll) <==> (r.ur.value > r.ll.value <==> r.ll.value < level))
            && (Agrees(call, r.ll) <==> Agrees(call, r.ul)) && (Agrees(call, r.ll) <==> Agrees(call, r.lr))
  {
    CrossingsArePaired(r, level);
    CrossingsAreWithin(r, level);
    var p := Crossings(r, level);
    hide Mix, Side, CrossingPoint, Upright;
    SidesFromLeft(r, p[0], p[1]);
    SidesFromRight(r, p[2], p[3]);
  }

  /** There is a rectangle in which the first segment has the wrong side. */
  lemma SaddleCanBeWrong()
    ensures var r := Rect(Corner(0.0, Point(0.5, 0.5)), Corner(2.0, Point(0.5, 1.5)),
                          Corner(0.0, Point(1.5, 1.5)), Corner(3.0, Point(1.5, 0.5)));
            Saddle(r, 1.0) && !Agrees(LevelCalls(r, 1.0)[0], r.ll)
  {
    var r := Rect(Corner(0.0, Point(0.5, 0.5)), Corner(2.0, Point(0.5, 1.5)),
                  Corner(0.0, Point(1.5, 1.5)), Corner(3.0, Point(1.5, 0.5)));
    SaddleSides(r, 1.0);
  }

  // ---------------------------------------------------------------------
  // Levels that go through a corner.
  // ---------------------------------------------------------------------

  /**
   * The side that is said to be high is right as far as the corner tells: it is on the level, on the line, or agrees.
   */
  predicate Fits(call: Call, c: Corner) {
    c.value == call.segment.level || Sign(Side(call.segment.from, call.segment.to, c.at)) == 0 || Agrees(call, c)
  }

  predicate AllFit(call: Call, r: Rect) {
    Fits(call, r.ul) && Fits(call, r.ll) && Fits(call, r.lr) && Fits(call, r.ur)
  }

  predicate SameSide(a: Corner, b: Corner, level: real) {
    (a.value > level && b.value > level) || (a.value < level && b.value < level)
  }

  predicate Opposite(a: Corner, b: Corner, level: real) {
    a.value > level > b.value || a.value < level < b.value
  }

  /**
   * A level that goes through the lower left or the lower right corner, and not away from it into the rectangle on the
   * side that its other end suggests.
   */
  predicate Misled(r: Rect, level: real) {
    || (r.ll.value == level && SameSide(r.ul, r.lr, level) && !SameSide(r.ur, r.ul, level))
    || (r.lr.value == level && SameSide(r.ll, r.ur, level) && !SameSide(r.ul, r.ll, level))
    || (r.ll.value == level == r.lr.value && Opposite(r.ul, r.ur, level))
  }

  /** The level crosses the edge from a to b at b exactly if b is on the level, and otherwise between the two. */
  predicate CrossedFrom(a: Corner, b: Corner, level: real, p: Point) {
    if b.value == level then p == b.at
    else
      && (if a.at.x < b.at.x then a.at.x < p.x < b.at.x else if a.at.x > b.at.x then b.at.x < p.x < a.at.x
          else p.x == a.at.x)
      && (if a.at.y < b.at.y then a.at.y < p.y < b.at.y else if a.at.y > b.at.y then b.at.y < p.y < a.at.y
          else p.y == a.at.y)
  }

  lemma CrossingIsFrom(a: Corner, b: Corner, next: real, level: real)
    requires Crosses(a, b, next, level)
    ensures CrossedFrom(a, b, level, CrossingPoint(a, b, next, level))
  {
    if b.value != level {
      CrossingIsWithin(a, b, next, level);
    } else if a.value < level {
      assert (level - a.value) / (b.value - a.value) == 1.0;
      MixEnds(a.at, b.at);
    } else if a.value > level {
      assert (level - b.value) / (a.value - b.value) == 0.0;
      MixEnds(b.at, a.at);
    }
  }

  lemma MixEnds(p: Point, q: Point)
    ensures Mix(p, q, 0.0) == p && Mix(p, q, 1.0) == q
  {
  }

  /**
   * What is said about a segment from the left to the bottom edge is right unless it is misled; the others likewise.
   */
  lemma FitsLeftBottom(r: Rect, level: real)
    requires Upright(r) && !OffLevel(r, level)
    requires var e := CrossedEdges(r, level); e.left && e.bottom
    ensures var p, q := CrossingPoint(r.ul, r.ll, r.lr.value, level), CrossingPoint(r.ll, r.lr, r.ur.value, level);
            AllFit(Call(Segment(level, p, q), r.ur.value > r.ll.value), r) <==> !Misled(r, level)
  {
    CrossingIsFrom(r.ul, r.ll, r.lr.value, level);
    CrossingIsFrom(r.ll, r.lr, r.ur.value, level);
    var p, q := CrossingPoint(r.ul, r.ll, r.lr.value, level), CrossingPoint(r.ll, r.lr, r.ur.value, level);
    hide Side, Times, CrossingPoint;
    SideInLine(p, q, r.ul.at);
    SideInLine(p, q, r.ll.at);
    SideInLine(p, q, r.lr.at);
    SideInLine(p, q, r.ur.at);
    SideElsewhere(p, q, r.ur.at);
  }

  lemma FitsLeftRight(r: Rect, level: real)
    requires Upright(r) && !OffLevel(r, level)
    requires var e := CrossedEdges(r, level); e.left && e.right && !e.bottom
    ensures var p, q := CrossingPoint(r.ul, r.ll, r.lr.value, level), CrossingPoint(r.lr, r.ur, r.ul.value, level);
            AllFit(Call(Segment(level, p, q), r.ul.value > r.lr.value), r) <==> !Misled(r, level)
  {
    CrossingIsFrom(r.ul, r.ll, r.lr.value, level);
    CrossingIsFrom(r.lr, r.ur, r.ul.value, level);
    var p, q := CrossingPoint(r.ul, r.ll, r.lr.value, level), CrossingPoint(r.lr, r.ur, r.ul.value, level);
    hide Side, Times, CrossingPoint;
    SideInLine(p, q, r.ul.at);
    SideInLine(p, q, r.ll.at);
    SideInLine(p, q, r.lr.at);
    SideInLine(p, q, r.ur.at);
  }

  lemma FitsLeftTop(r: Rect, level: real)
    requires Upright(r) && !OffLevel(r, level)
    requires var e := CrossedEdges(r, level); e.left && e.top && !e.bottom && !e.right
    ensures var p, q := CrossingPoint(r.ul, r.ll, r.lr.value, level), CrossingPoint(r.ur, r.ul, r.ll.value, level);
            AllFit(Call(Segment(level, p, q), r.ul.value > r.lr.value), r) <==> !Misled(r, level)
  {
    CrossingIsFrom(r.ul, r.ll, r.lr.value, level);
    CrossingIsFrom(r.ur, r.ul, r.ll.value, level);
    var p, q := CrossingPoint(r.ul, r.ll, r.lr.value, level), CrossingPoint(r.ur, r.ul, r.ll.value, level);
    hide Side, Times, CrossingPoint;
    SideInLine(p, q, r.ul.at);
    SideInLine(p, q, r.ll.at);
    SideInLine(p, q, r.lr.at);
    SideInLine(p, q, r.ur.at);
    SideElsewhere(p, q, r.lr.at);
  }

  lemma FitsBottomRight(r: Rect, level: real)
    requires Upright(r) && !OffLevel(r, level)
    requires var e := CrossedEdges(r, level); e.bottom && e.right && !e.left
    ensures var p, q := CrossingPoint(r.ll, r.lr, r.ur.value, level), CrossingPoint(r.lr, r.ur, r.ul.value, level);
            AllFit(Call(Segment(level, p, q), r.ul.value > r.lr.value), r) <==> !Misled(r, level)
  {
    CrossingIsFrom(r.ll, r.lr, r.ur.value, level);
    CrossingIsFrom(r.lr, r.ur, r.ul.value, level);
    var p, q := CrossingPoint(r.ll, r.lr, r.ur.value, level), CrossingPoint(r.lr, r.ur, r.ul.value, level);
    hide Side, Times, CrossingPoint;
    SideInLine(p, q, r.ul.at);
    SideInLine(p, q, r.ll.at);
    SideInLine(p, q, r.lr.at);
    SideInLine(p, q, r.ur.at);
    SideElsewhere(p, q, r.ul.at);
  }

  lemma FitsBottomTop(r: Rect, level: real)
    requires Upright(r) && !OffLevel(r, level)
    requires var e := CrossedEdges(r, level); e.bottom && e.top && !e.left && !e.right
    ensures var p, q := CrossingPoint(r.ll, r.lr, r.ur.value, level), CrossingPoint(r.ur, r.ul, r.ll.value, level);
            AllFit(Call(Segment(level, p, q), r.ll.value > r.ur.value), r) <==> !Misled(r, level)
  {
    CrossingIsFrom(r.ll, r.lr, r.ur.value, level);
    CrossingIsFrom(r.ur, r.ul, r.ll.value, level);
    var p, q := CrossingPoint(r.ll, r.lr, r.ur.value, level), CrossingPoint(r.ur, r.ul, r.ll.value, level);
    hide Side, Times, CrossingPoint;
    SideInLine(p, q, r.ul.at);
    SideInLine(p, q, r.ll.at);
    SideInLine(p, q, r.lr.at);
    SideInLine(p, q, r.ur.at);
  }

  lemma FitsRightTop(r: Rect, level: real)
    requires Upright(r) && !OffLevel(r, level)
    requires var e := CrossedEdges(r, level); e.right && e.top && !e.left && !e.bottom
    ensures var p, q := CrossingPoint(r.lr, r.ur, r.ul.value, level), CrossingPoint(r.ur, r.ul, r.ll.value, level);
            AllFit(Call(Segment(level, p, q), r.ll.value > r.ur.value), r) <==> !Misled(r, level)
  {
    CrossingIsFrom(r.lr, r.ur, r.ul.value, level);
    CrossingIsFrom(r.ur, r.ul, r.ll.value, level);
    var p, q := CrossingPoint(r.lr, r.ur, r.ul.value, level), CrossingPoint(r.ur, r.ul, r.ll.value, level);
    hide Side, Times, CrossingPoint;
    SideInLine(p, q, r.ul.at);
    SideInLine(p, q, r.ll.at);
    SideInLine(p, q, r.lr.at);
    SideInLine(p, q, r.ur.at);
    SideElsewhere(p, q, r.ll.at);
  }

  /**
   * Where a level goes through a corner there is at most one segment, and what is said is right unless it is misled.
   */
  lemma FitsUnlessMisled(r: Rect, level: real)
    requires Upright(r) && !OffLevel(r, level) && LevelCalls(r, level) != []
    ensures |LevelCalls(r, level)| == 1 && (AllFit(LevelCalls(r, level)[0], r) <==> !Misled(r, level))
  {
    var e := CrossedEdges(r, level);
    assert e.Number() < 4;
    if e.left && e.bottom {
      FitsLeftBottom(r, level);
    } else if e.left && e.right {
      FitsLeftRight(r, level);
    } else if e.left {
      FitsLeftTop(r, level);
    } else if e.bottom && e.right {
      FitsBottomRight(r, level);
    } else if e.bottom {
      FitsBottomTop(r, level);
    } else {
      FitsRightTop(r, level);
    }
    hide Misled, AllFit, CrossingPoint;
  }

  /**
   * So for every level: except in saddles, what is said about the only segment is right exactly if it is not misled.
   */
  lemma SideIsRightUnless(r: Rect, level: real)
    requires Upright(r) && !(OffLevel(r, level) && Saddle(r, level)) && LevelCalls(r, level) != []
    ensures |LevelCalls(r, level)| == 1 && (AllFit(LevelCalls(r, level)[0], r) <==> !Misled(r, level))
  {
    if OffLevel(r, level) {
      CrossingsArePaired(r, level);
      LeftIsHigh(r, level);
    } else {
      FitsUnlessMisled(r, level);
    }
  }

  // ---------------------------------------------------------------------
  // Levels and values.
  // ---------------------------------------------------------------------

  /** A perturbed value is on no contour level. */
  lemma PerturbedOffLevels(setup: Setup, v: real, k: int)
    requires setup.Valid()
    ensures setup.Perturbed(v) != setup.Level(k)
  {
    var interval, offset := setup.interval, setup.offset;
    var level := (v - offset) / interval;
    var level' := (setup.Perturbed(v) - offset) / interval;
    if level - level.Floor as real == 0.0 {
      assert level' == level + FUDGE_EXACT by {
        Shifted(v - offset, interval);
      }
    }
    assert level' - level'.Floor as real != 0.0;
    assert (k as real).Floor == k;
    NoMultiple(setup.Perturbed(v) - offset, k as real, interval);
  }

  lemma NoMultiple(x: real, k: real, interval: real)
    requires interval != 0.0 && x / interval != k
    ensures x != k * interval
  {
    Multiple(k, interval);
  }

  lemma Shifted(x: real, interval: real)
    requires interval != 0.0
    ensures (x + interval * FUDGE_EXACT) / interval == x / interval + FUDGE_EXACT
  {
  }

  lemma Multiple(k: real, interval: real)
    requires interval != 0.0
    ensures k * interval / interval == k
  {
  }

  /** A thousandth of the interval is added to what is on a level, and nothing to anything else. */
  lemma PerturbedMeans(setup: Setup, v: real)
    requires setup.Valid()
    ensures (exists k :: v == setup.Level(k)) ==> setup.Perturbed(v) == v + setup.interval / 1000.0
    ensures (forall k :: v != setup.Level(k)) ==> setup.Perturbed(v) == v
  {
    var level := (v - setup.offset) / setup.interval;
    if k :| v == setup.Level(k) {
      Multiple(k as real, setup.interval);
      assert level == k as real && level.Floor == k;
    }
    if level - level.Floor as real == 0.0 {
      assert v == setup.Level(level.Floor);
    }
  }

  /** The corners of a pixel that is one rectangle have the values of the four pixels whose centers they are. */
  lemma CornersArePixels(setup: Setup, raster: seq<seq<real>>, y: int, i: nat, c: Corner, px: nat, py: nat)
    requires setup.Fits(raster) && 0 < i < setup.width && 0 < y < setup.height && px < setup.width && py < setup.height
    requires var v := setup.ValuesAt(raster[y - 1], raster[y], i);
             var r := setup.WholeRect(v, y, i); c in [r.ul, r.ll, r.lr, r.ur]
    requires c.at == Point(px as real + 0.5, py as real + 0.5)
    ensures c.value == raster[py][px]
  {
  }

  /** What a corner of a quadrant is, by where it is: a pixel, or the mean of two or four pixels around it. */
  predicate IsMean(v: Values, x0: real, y0: real, c: Corner) {
    && (c.at == Point(x0, y0) ==> c.value == v.ul)
    && (c.at == Point(x0, y0 + 1.0) ==> c.value == v.ll)
    && (c.at == Point(x0 + 1.0, y0 + 1.0) ==> c.value == v.lr)
    && (c.at == Point(x0 + 1.0, y0) ==> c.value == v.ur)
    && (c.at == Point(x0, y0 + 0.5) ==> 2.0 * c.value == v.ul + v.ll)
    && (c.at == Point(x0 + 0.5, y0) ==> 2.0 * c.value == v.ul + v.ur)
    && (c.at == Point(x0 + 0.5, y0 + 1.0) ==> 2.0 * c.value == v.ll + v.lr)
    && (c.at == Point(x0 + 1.0, y0 + 0.5) ==> 2.0 * c.value == v.lr + v.ur)
    && (c.at == Point(x0 + 0.5, y0 + 0.5) ==> 4.0 * c.value == v.ul + v.ll + v.lr + v.ur)
  }

  /** Without nodata around, the corners of quadrants are pixels and means of those around them. */
  lemma QuadrantsAreMeans(setup: Setup, v: Values, y: int, i: nat, q: nat)
    requires q < 4 && setup.Good(v.ul) && setup.Good(v.ll) && setup.Good(v.lr) && setup.Good(v.ur)
    ensures var r, x0, y0 := setup.Quadrant(v, y, i, q), i as real - 0.5, y as real - 0.5;
            IsMean(v, x0, y0, r.ul) && IsMean(v, x0, y0, r.ll) && IsMean(v, x0, y0, r.lr) && IsMean(v, x0, y0, r.ur)
  {
    CenterIsMean(setup, v);
    MeanIsMean(setup, v.ul, v.ll);
    MeanIsMean(setup, v.ul, v.ur);
    MeanIsMean(setup, v.lr, v.ll);
    MeanIsMean(setup, v.lr, v.ur);
    hide Setup.Center, Setup.Mean, Setup.Good;
  }

  lemma MeanIsMean(setup: Setup, a: real, b: real)
    requires setup.Good(a) && setup.Good(b)
    ensures 2.0 * setup.Mean(a, b) == a + b
  {
  }

  /** In a pixel that is one rectangle of perturbed lines, no level goes through a corner. */
  lemma WholePixelsAreOffLevel(setup: Setup, last: seq<real>, line: seq<real>, y: int, i: nat, k: int)
    requires setup.Valid() && |last| == |line| == setup.width && i <= setup.width
    requires setup.Whole(setup.ValuesAt(setup.PerturbedLine(last), setup.PerturbedLine(line), i), y, i)
    ensures var v := setup.ValuesAt(setup.PerturbedLine(last), setup.PerturbedLine(line), i);
            Upright(setup.WholeRect(v, y, i)) && OffLevel(setup.WholeRect(v, y, i), setup.Level(k))
  {
    hide Setup.Perturbed, Setup.Level;
    PerturbedOffLevels(setup, last[i - 1], k);
    PerturbedOffLevels(setup, line[i - 1], k);
    PerturbedOffLevels(setup, line[i], k);
    PerturbedOffLevels(setup, last[i], k);
  }

  /** The values around a pixel: those that are not nodata are on no level. */
  predicate GoodOffLevel(setup: Setup, v: Values, level: real) {
    && (setup.Good(v.ul) ==> v.ul != level) && (setup.Good(v.ll) ==> v.ll != level)
    && (setup.Good(v.lr) ==> v.lr != level) && (setup.Good(v.ur) ==> v.ur != level)
  }

  /** One value is nodata, or the values are those of two pixels only, side by side or one above the other. */
  predicate AtBorderOrNoData(setup: Setup, v: Values) {
    || !setup.Good(v.ul) || !setup.Good(v.ll) || !setup.Good(v.lr) || !setup.Good(v.ur)
    || (v.ul == v.ll && v.ur == v.lr) || (v.ul == v.ur && v.ll == v.lr)
  }

  /** The center is the mean of the good values. */
  lemma CenterIsMean(setup: Setup, v: Values)
    requires setup.Good(v.ul) || setup.Good(v.ll) || setup.Good(v.lr) || setup.Good(v.ur)
    ensures var a, b, c, d := setup.Good(v.ul), setup.Good(v.ll), setup.Good(v.lr), setup.Good(v.ur);
            var sum := (if a then v.ul else 0.0) + (if b then v.ll else 0.0) + (if c then v.lr else 0.0)
                       + (if d then v.ur else 0.0);
            var n := (if a then 1 else 0) + (if b then 1 else 0) + (if c then 1 else 0) + (if d then 1 else 0);
            && (n == 1 ==> setup.Center(v) == sum) && (n == 2 ==> setup.Center(v) * 2.0 == sum)
            && (n == 3 ==> setup.Center(v) * 3.0 == sum) && (n == 4 ==> setup.Center(v) * 4.0 == sum)
  {
  }

  /** In a quadrant no segment is misled, although a level can go through its corners. */
  lemma QuadrantsAreNotMisled(setup: Setup, v: Values, y: int, i: nat, q: nat, level: real)
    requires q < 4 && setup.HasQuadrant(v, y, i, q)
    requires GoodOffLevel(setup, v, level) && AtBorderOrNoData(setup, v)
    ensures !Misled(setup.Quadrant(v, y, i, q), level) && Upright(setup.Quadrant(v, y, i, q))
  {
    CenterIsMean(setup, v);
    hide Setup.Center;
  }

  /** A rectangle that is traced for a pixel. */
  ghost predicate IsPixelRect(setup: Setup, v: Values, y: int, i: nat, r: Rect) {
    if setup.Whole(v, y, i) then r == setup.WholeRect(v, y, i)
    else exists q: nat :: q < 4 && setup.HasQuadrant(v, y, i, q) && r == setup.Quadrant(v, y, i, q)
  }

  /** Perturbing a value again does not change it. */
  lemma PerturbedOnce(setup: Setup, line: seq<real>)
    requires setup.Valid()
    ensures setup.PerturbedLine(setup.PerturbedLine(line)) == setup.PerturbedLine(line)
  {
    forall i | 0 <= i < |line|
      ensures setup.Perturbed(setup.Perturbed(line[i])) == setup.Perturbed(line[i])
    {
      var v := setup.Perturbed(line[i]);
      var level := (v - setup.offset) / setup.interval;
      PerturbedOffLevels(setup, line[i], level.Floor);
      assert level * setup.interval == v - setup.offset;
    }
  }

  /**
   * In every rectangle that is traced in a raster of perturbed lines the side said to be high is right, at every level,
   * but for saddles. Before the first line and after the last one there are copies of them.
   */
  lemma PixelSidesAreRight(setup: Setup, last: seq<real>, line: seq<real>, y: int, i: nat, r: Rect, k: int)
    requires setup.Valid() && |last| == |line| == setup.width && i <= setup.width && 0 <= y <= setup.height
    requires y == 0 || y == setup.height ==> last == line
    requires IsPixelRect(setup, setup.ValuesAt(setup.PerturbedLine(last), setup.PerturbedLine(line), i), y, i, r)
    ensures !(OffLevel(r, setup.Level(k)) && Saddle(r, setup.Level(k))) ==>
              forall call <- LevelCalls(r, setup.Level(k)) :: AllFit(call, r)
  {
    var v, level := setup.ValuesAt(setup.PerturbedLine(last), setup.PerturbedLine(line), i), setup.Level(k);
    if setup.Whole(v, y, i) {
      WholePixelsAreOffLevel(setup, last, line, y, i, k);
    } else {
      ValuesOffLevel(setup, last, line, i, k);
      BorderValues(setup, last, line, y, i);
      var q: nat :| q < 4 && setup.HasQuadrant(v, y, i, q) && r == setup.Quadrant(v, y, i, q);
      QuadrantsAreNotMisled(setup, v, y, i, q, level);
    }
    hide Setup.Level, OffLevel, Saddle, AllFit;
    if !(OffLevel(r, level) && Saddle(r, level)) && LevelCalls(r, level) != [] {
      SideIsRightUnless(r, level);
    }
  }

  lemma ValuesOffLevel(setup: Setup, last: seq<real>, line: seq<real>, i: nat, k: int)
    requires setup.Valid() && |last| == |line| == setup.width && i <= setup.width
    ensures GoodOffLevel(setup, setup.ValuesAt(setup.PerturbedLine(last), setup.PerturbedLine(line), i), setup.Level(k))
  {
    hide Setup.Perturbed, Setup.Level;
    var left, right := if i == 0 then 0 else i - 1, if i < setup.width then i else setup.width - 1;
    PerturbedOffLevels(setup, last[left], k);
    PerturbedOffLevels(setup, line[left], k);
    PerturbedOffLevels(setup, line[right], k);
    PerturbedOffLevels(setup, last[right], k);
  }

  lemma BorderValues(setup: Setup, last: seq<real>, line: seq<real>, y: int, i: nat)
    requires setup.Valid() && |last| == |line| == setup.width && i <= setup.width && 0 <= y <= setup.height
    requires y == 0 || y == setup.height ==> last == line
    requires !setup.Whole(setup.ValuesAt(setup.PerturbedLine(last), setup.PerturbedLine(line), i), y, i)
    ensures AtBorderOrNoData(setup, setup.ValuesAt(setup.PerturbedLine(last), setup.PerturbedLine(line), i))
  {
    hide Setup.Perturbed;
  }

  /** All levels between the lowest and the highest value of a rectangle are traced, and no other one crosses it. */
  lemma TracedLevels(setup: Setup, r: Rect, k: int)
    requires setup.Valid() && setup.interval > 0.0
    ensures setup.StartLevel(r) <= k <= setup.EndLevel(r) <==> Lowest(r) <= setup.Level(k) <= Highest(r)
    ensures !(setup.StartLevel(r) <= k <= setup.EndLevel(r)) ==> LevelCalls(r, setup.Level(k)) == []
  {
    Scaled(Lowest(r), k, setup);
    Scaled(Highest(r), k, setup);
    hide Mix, Setup.Level;
  }

  /** All corners of the rectangle are on level k. */
  predicate FlatAt(setup: Setup, r: Rect, k: int) {
    Lowest(r) == Highest(r) == setup.Level(k)
  }

  /**
   * With a negative interval nothing is traced: the search for levels begins above its end, or finds a flat
   * rectangle.
   */
  lemma NegativeTracesNothing(setup: Setup, r: Rect)
    requires setup.Valid() && setup.interval < 0.0
    ensures setup.RectCalls(r) == []
    ensures forall k :: setup.StartLevel(r) <= k <= setup.EndLevel(r) ==> FlatAt(setup, r, k)
  {
    forall k | setup.StartLevel(r) <= k <= setup.EndLevel(r)
      ensures FlatAt(setup, r, k)
    {
      ScaledDown(Lowest(r), k, setup);
      ScaledDown(Highest(r), k, setup);
      hide Setup.Level;
    }
    if setup.StartLevel(r) <= setup.EndLevel(r) {
      FlatIsEmpty(setup, r, setup.StartLevel(r), setup.EndLevel(r) + 1 - setup.StartLevel(r));
    }
  }

  lemma {:induction false} FlatIsEmpty(setup: Setup, r: Rect, start: int, n: nat)
    requires forall k :: start <= k < start + n ==> FlatAt(setup, r, k)
    ensures setup.LevelsCalls(r, start, n) == []
  {
    if n > 0 {
      FlatIsEmpty(setup, r, start, n - 1);
      assert FlatAt(setup, r, start + n - 1);
      FlatHasNoCalls(r, setup.Level(start + n - 1));
    }
  }

  lemma FlatHasNoCalls(r: Rect, level: real)
    requires Lowest(r) == Highest(r) == level
    ensures LevelCalls(r, level) == []
  {
  }

  /** So there are no contours at all. */
  lemma NegativeIntervalIsEmpty(setup: Setup, raster: seq<seq<real>>)
    requires setup.Fits(raster) && setup.interval < 0.0
    ensures setup.TracedRaster(raster) == []
  {
    hide Setup.Traced, Setup.PerturbedLine, Setup.TracedLines;
    NegativeLinesEmpty(setup, raster, setup.height);
    if setup.height > 0 {
      var line := setup.PerturbedLine(raster[setup.height - 1]);
      NegativeLineEmpty(setup, line, setup.PerturbedLine(line), setup.height, setup.width + 1);
    }
  }

  lemma {:induction false} NegativeLinesEmpty(setup: Setup, raster: seq<seq<real>>, n: nat)
    requires setup.Fits(raster) && setup.interval < 0.0 && n <= |raster|
    ensures setup.TracedLines(raster, n) == []
  {
    hide Setup.Traced, Setup.PerturbedLine;
    if n > 0 {
      NegativeLinesEmpty(setup, raster, n - 1);
      var line := setup.PerturbedLine(raster[n - 1]);
      var last := if n == 1 then line else setup.PerturbedLine(raster[n - 2]);
      NegativeLineEmpty(setup, last, line, n - 1, setup.width + 1);
    }
  }

  lemma {:induction false} NegativeLineEmpty(setup: Setup, last: seq<real>, line: seq<real>, y: int, n: nat)
    requires setup.Valid() && setup.interval < 0.0 && |last| == |line| == setup.width && n <= setup.width + 1
    ensures setup.Traced(last, line, y, n) == []
  {
    hide Setup.PixelCalls;
    if n > 0 {
      NegativeLineEmpty(setup, last, line, y, n - 1);
      NegativePixelEmpty(setup, last, line, y, n - 1);
    }
  }

  lemma NegativePixelEmpty(setup: Setup, last: seq<real>, line: seq<real>, y: int, i: nat)
    requires setup.Valid() && setup.interval < 0.0 && |last| == |line| == setup.width && i <= setup.width
    ensures setup.PixelCalls(last, line, y, i) == []
  {
    hide Setup.RectCalls, Setup.Quadrant, Setup.HasQuadrant, Setup.WholeRect;
    var v := setup.ValuesAt(last, line, i);
    if setup.Whole(v, y, i) {
      NegativeTracesNothing(setup, setup.WholeRect(v, y, i));
    } else if setup.Good(v.ul) || setup.Good(v.ll) || setup.Good(v.lr) || setup.Good(v.ur) {
      NegativeQuadrantsEmpty(setup, v, y, i, 4);
    }
  }

  lemma {:induction false} NegativeQuadrantsEmpty(setup: Setup, v: Values, y: int, i: nat, n: nat)
    requires setup.Valid() && setup.interval < 0.0
    requires setup.Good(v.ul) || setup.Good(v.ll) || setup.Good(v.lr) || setup.Good(v.ur)
    ensures setup.QuadrantCalls(v, y, i, n) == []
  {
    hide Setup.RectCalls, Setup.Quadrant, Setup.HasQuadrant;
    if n > 0 {
      NegativeQuadrantsEmpty(setup, v, y, i, n - 1);
      NegativeTracesNothing(setup, setup.Quadrant(v, y, i, n - 1));
    }
  }

  lemma ScaledDown(x: real, k: int, setup: Setup)
    requires setup.Valid() && setup.interval < 0.0
    ensures x >= setup.Level(k) <==> (x - setup.offset) / setup.interval <= k as real
    ensures setup.Level(k) >= x <==> k as real <= (x - setup.offset) / setup.interval
    ensures -((x - setup.offset) / setup.interval) == -(x - setup.offset) / setup.interval
  {
    var z := (x - setup.offset) / setup.interval;
    assert z * setup.interval == x - setup.offset;
    ProductOrder(z, k as real, setup.interval);
  }

  lemma ProductOrder(z: real, k: real, d: real)
    requires d < 0.0
    ensures z <= k <==> z * d >= k * d
    ensures k <= z <==> k * d >= z * d
  {
    if z < k {
      assert (k - z) * -d > 0.0;
    } else if z > k {
      assert (z - k) * -d > 0.0;
    }
  }

  lemma Scaled(x: real, k: int, setup: Setup)
    requires setup.Valid() && setup.interval > 0.0
    ensures x <= setup.Level(k) <==> (x - setup.offset) / setup.interval <= k as real
    ensures setup.Level(k) <= x <==> k as real <= (x - setup.offset) / setup.interval
    ensures -((x - setup.offset) / setup.interval) == -(x - setup.offset) / setup.interval
  {
    var z := (x - setup.offset) / setup.interval;
    assert z * setup.interval == x - setup.offset;
    if z <= k as real {
      assert (k as real - z) * setup.interval >= 0.0;
    } else {
      assert (z - k as real) * setup.interval > 0.0;
    }
    if z < k as real {
      assert (k as real - z) * setup.interval > 0.0;
    }
  }
}

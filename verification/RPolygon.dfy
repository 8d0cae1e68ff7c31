/** RPolygonF: the boundary of one polygon while it is being collected, as
    strings of lattice points, and how the strings are spliced into rings. */
module RPolygons {
  import opened Numbers

  datatype Point = Point(x: int, y: int)

  /** A unit edge of the pixel lattice: Across from (x, y) to (x + 1, y), Down from
      (x, y) to (x, y + 1). */
  datatype Edge = Across(x: int, y: int) | Down(x: int, y: int)

  // ---------------------------------------------------------------------
  // How often a unit edge occurs in segments, strings and lists of strings.
  // ---------------------------------------------------------------------

  ghost predicate Straight(a: Point, b: Point) {
    a != b && (a.x == b.x || a.y == b.y)
  }

  /** Does the straight segment from a to b run along e? */
  ghost predicate Covers(a: Point, b: Point, e: Edge) {
    match e
    case Across(x, y) => a.y == b.y == y && Min(a.x, b.x) <= x < Max(a.x, b.x)
    case Down(x, y) => a.x == b.x == x && Min(a.y, b.y) <= y < Max(a.y, b.y)
  }

  ghost function Count(b: bool): nat { if b then 1 else 0 }

  function Last<T>(s: seq<T>): T
    requires |s| > 0
  {
    s[|s| - 1]
  }

  /** At least two points, joined by straight segments. */
  ghost predicate ValidString(s: seq<Point>) {
    |s| >= 2 && forall i {:trigger s[i]} :: 0 <= i < |s| - 1 ==> Straight(s[i], s[i + 1])
  }

  ghost function StringCount(s: seq<Point>, e: Edge): nat {
    if |s| < 2 then 0
    else StringCount(s[..|s| - 1], e) + Count(Covers(s[|s| - 2], s[|s| - 1], e))
  }

  ghost function TotalCount(strings: seq<seq<Point>>, e: Edge): nat {
    if strings == [] then 0
    else TotalCount(strings[..|strings| - 1], e) + StringCount(Last(strings), e)
  }

  predicate Closed(s: seq<Point>)
    requires |s| > 0
  {
    s[0] == Last(s)
  }

  // ---------------------------------------------------------------------
  // Counts under the operations on strings.
  // ---------------------------------------------------------------------

  lemma PointCount(p: Point, e: Edge)
    ensures StringCount([p], e) == 0
  {
  }

  lemma PairCount(p: Point, q: Point, e: Edge)
    ensures StringCount([p, q], e) == Count(Covers(p, q, e))
  {
    assert [p, q][..1] == [p];
    PointCount(p, e);
  }

  /** As many times the step from b to c as the segment from a to b is long leads from a to b. */
  predicate Collinear(a: Point, b: Point, c: Point) {
    var n := Max(Abs(a.x - b.x), Abs(a.y - b.y));
    a.x - b.x == (b.x - c.x) * n && a.y - b.y == (b.y - c.y) * n
  }

  /** c lies one step from b, in the direction of the segment from a to b. */
  ghost predicate GoesOn(a: Point, b: Point, c: Point) {
    Abs(c.x - b.x) + Abs(c.y - b.y) == 1 && Collinear(a, b, c)
  }

  lemma ExtendSegment(a: Point, b: Point, c: Point, e: Edge)
    requires Straight(a, b) && GoesOn(a, b, c)
    ensures Straight(a, c)
    ensures Count(Covers(a, c, e)) == Count(Covers(a, b, e)) + Count(Covers(b, c, e))
  {
    var n := Max(Abs(a.x - b.x), Abs(a.y - b.y));
    if c.x != b.x {
      assert c.y == b.y;
      assert (b.y - c.y) * n == 0;
      assert c.x - b.x == 1 || c.x - b.x == -1;
    } else {
      assert (b.x - c.x) * n == 0;
      assert c.y - b.y == 1 || c.y - b.y == -1;
    }
  }

  /** The collinear pop: the last point moves on instead of a new one being added. */
  lemma PopCollinear(s: seq<Point>, p: Point, e: Edge)
    requires ValidString(s) && GoesOn(s[|s| - 2], s[|s| - 1], p)
    ensures ValidString(s[..|s| - 1] + [p])
    ensures StringCount(s[..|s| - 1] + [p], e) == StringCount(s, e) + Count(Covers(s[|s| - 1], p, e))
  {
    var r := s[..|s| - 1] + [p];
    ExtendSegment(s[|s| - 2], s[|s| - 1], p, e);
    assert r[..|r| - 1] == s[..|s| - 1];
  }

  lemma AppendPoint(s: seq<Point>, p: Point, e: Edge)
    requires ValidString(s) && Straight(Last(s), p)
    ensures ValidString(s + [p])
    ensures StringCount(s + [p], e) == StringCount(s, e) + Count(Covers(Last(s), p, e))
  {
    assert (s + [p])[..|s|] == s;
  }

  lemma {:induction false} StringCountFront(s: seq<Point>, e: Edge)
    requires |s| >= 2
    ensures StringCount(s, e) == Count(Covers(s[0], s[1], e)) + StringCount(s[1..], e)
  {
    if |s| == 2 {
      PointCount(s[1], e);
      assert s[1..] == [s[1]] && s[..1] == [s[0]];
    } else {
      StringCountFront(s[..|s| - 1], e);
      assert s[..|s| - 1][1..] == s[1..][..|s[1..]| - 1];
    }
  }

  function Reversed(s: seq<Point>): (r: seq<Point>)
    ensures |r| == |s| && forall i :: 0 <= i < |s| ==> r[i] == s[|s| - 1 - i]
  {
    seq(|s|, i requires 0 <= i < |s| => s[|s| - 1 - i])
  }

  lemma ReversedValid(s: seq<Point>)
    requires ValidString(s)
    ensures ValidString(Reversed(s))
  {
    var r := Reversed(s);
    forall i | 0 <= i < |r| - 1
      ensures Straight(r[i], r[i + 1])
    {
      var j := |s| - 2 - i;
      assert Straight(s[j], s[j + 1]);
    }
  }

  lemma {:induction false} ReversedCount(s: seq<Point>, e: Edge)
    ensures StringCount(Reversed(s), e) == StringCount(s, e)
  {
    if |s| > 1 {
      ReversedCount(s[1..], e);
      StringCountFront(s, e);
      var r := Reversed(s);
      assert r[..|r| - 1] == Reversed(s[1..]);
    }
  }

  /** Appending a string that starts where the base ends. */
  lemma JoinValid(base: seq<Point>, s: seq<Point>)
    requires ValidString(base) && ValidString(s) && Last(base) == s[0]
    ensures ValidString(base + s[1..])
  {
    var j := base + s[1..];
    forall i | 0 <= i < |j| - 1
      ensures Straight(j[i], j[i + 1])
    {
      if i >= |base| - 1 {
        var k := i - |base| + 1;
        assert Straight(s[k], s[k + 1]);
        assert j[i] == s[k];
      } else {
        assert Straight(base[i], base[i + 1]);
      }
    }
  }

  lemma {:induction false} JoinCount(base: seq<Point>, s: seq<Point>, e: Edge)
    requires |base| > 0 && |s| > 0 && Last(base) == s[0]
    ensures StringCount(base + s[1..], e) == StringCount(base, e) + StringCount(s, e)
  {
    if |s| == 1 {
      assert base + s[1..] == base;
    } else {
      var front, joined := s[..|s| - 1], base + s[1..];
      JoinCount(base, front, e);
      assert joined[..|joined| - 1] == base + front[1..];
    }
  }

  lemma {:induction false} UpdateCount(strings: seq<seq<Point>>, i: nat, s: seq<Point>, e: Edge)
    requires i < |strings|
    ensures TotalCount(strings[i := s], e) + StringCount(strings[i], e) == TotalCount(strings, e) + StringCount(s, e)
  {
    var n := |strings| - 1;
    if i < n {
      UpdateCount(strings[..n], i, s, e);
      assert strings[i := s][..n] == strings[..n][i := s];
    } else {
      assert strings[i := s][..n] == strings[..n];
    }
  }

  /** Splicing string srcIndex into string baseIndex and moving the last string into its place. */
  function Spliced(strings: seq<seq<Point>>, baseIndex: nat, srcIndex: nat, joined: seq<Point>): (r: seq<seq<Point>>)
    requires baseIndex < srcIndex < |strings|
    ensures |r| == |strings| - 1
  {
    var s := strings[baseIndex := joined];
    s[srcIndex := Last(s)][..|s| - 1]
  }

  lemma SplicedCount(strings: seq<seq<Point>>, baseIndex: nat, srcIndex: nat, joined: seq<Point>, e: Edge)
    requires baseIndex < srcIndex < |strings|
    requires StringCount(joined, e) == StringCount(strings[baseIndex], e) + StringCount(strings[srcIndex], e)
    ensures TotalCount(Spliced(strings, baseIndex, srcIndex, joined), e) == TotalCount(strings, e)
  {
    UpdateCount(strings, baseIndex, joined, e);
    var s := strings[baseIndex := joined];
    UpdateCount(s, srcIndex, Last(s), e);
  }

  // ---------------------------------------------------------------------
  // Degrees.
  // ---------------------------------------------------------------------

  /** How many edges of the strings meet at v. */
  ghost function Degree(strings: seq<seq<Point>>, v: Point): nat {
    TotalCount(strings, Across(v.x, v.y)) + TotalCount(strings, Across(v.x - 1, v.y))
    + TotalCount(strings, Down(v.x, v.y)) + TotalCount(strings, Down(v.x, v.y - 1))
  }

  ghost predicate EvenDegrees(strings: seq<seq<Point>>) {
    forall v :: Degree(strings, v) % 2 == 0
  }

  ghost function StringDegree(s: seq<Point>, v: Point): nat {
    StringCount(s, Across(v.x, v.y)) + StringCount(s, Across(v.x - 1, v.y))
    + StringCount(s, Down(v.x, v.y)) + StringCount(s, Down(v.x, v.y - 1))
  }

  ghost function SegmentDegree(a: Point, b: Point, v: Point): nat {
    Count(Covers(a, b, Across(v.x, v.y))) + Count(Covers(a, b, Across(v.x - 1, v.y)))
    + Count(Covers(a, b, Down(v.x, v.y))) + Count(Covers(a, b, Down(v.x, v.y - 1)))
  }

  lemma SegmentParity(a: Point, b: Point, v: Point)
    requires Straight(a, b)
    ensures SegmentDegree(a, b, v) % 2 == (Count(v == a) + Count(v == b)) % 2
  {
  }

  lemma StringDegreeSplit(s: seq<Point>, v: Point)
    requires |s| > 1
    ensures StringDegree(s, v) == StringDegree(s[..|s| - 1], v) + SegmentDegree(s[|s| - 2], s[|s| - 1], v)
  {
  }

  lemma LastSegment(s: seq<Point>)
    requires ValidString(s)
    ensures Straight(s[|s| - 2], s[|s| - 1]) && (ValidString(s[..|s| - 1]) || |s[..|s| - 1]| == 1)
    ensures s[..|s| - 1][0] == s[0] && Last(s[..|s| - 1]) == s[|s| - 2] && Last(s) == s[|s| - 1]
  {
  }

  lemma Parity(a: nat, b: nat, x: nat, y: nat, z: nat)
    requires a % 2 == (x + y) % 2 && b % 2 == (y + z) % 2
    ensures (a + b) % 2 == (x + z) % 2
  {
  }

  lemma {:induction false} StringParity(s: seq<Point>, v: Point)
    requires ValidString(s) || |s| == 1
    ensures StringDegree(s, v) % 2 == (Count(v == s[0]) + Count(v == Last(s))) % 2
  {
    hide StringDegree, SegmentDegree;
    if |s| > 1 {
      var front, a, b := s[..|s| - 1], s[|s| - 2], s[|s| - 1];
      LastSegment(s);
      StringDegreeSplit(s, v);
      StringParity(front, v);
      SegmentParity(a, b, v);
      Parity(StringDegree(front, v), SegmentDegree(a, b, v), Count(v == s[0]), Count(v == a), Count(v == b));
    } else {
      PointDegree(s, v);
    }
  }

  lemma PointDegree(s: seq<Point>, v: Point)
    requires |s| == 1
    ensures StringDegree(s, v) == 0
  {
  }

  ghost predicate ValidStrings(strings: seq<seq<Point>>) {
    forall i :: 0 <= i < |strings| ==> ValidString(strings[i])
  }

  /** How often v is an end of a string. */
  ghost function Ends(strings: seq<seq<Point>>, v: Point): nat
    requires ValidStrings(strings)
  {
    if strings == [] then 0
    else Ends(strings[..|strings| - 1], v) + Count(v == Last(strings)[0]) + Count(v == Last(Last(strings)))
  }

  lemma {:induction false} EndsParity(strings: seq<seq<Point>>, v: Point)
    requires ValidStrings(strings)
    ensures Degree(strings, v) % 2 == Ends(strings, v) % 2
  {
    if strings != [] {
      var front, s := strings[..|strings| - 1], Last(strings);
      EndsParity(front, v);
      StringParity(s, v);
      assert Degree(strings, v) == Degree(front, v) + StringDegree(s, v);
      Parity(Degree(front, v), StringDegree(s, v), Ends(front, v), 0, Count(v == s[0]) + Count(v == Last(s)));
    }
  }

  /** No string after baseIndex, up to n, can be spliced onto the end of string baseIndex. */
  ghost predicate Stuck(strings: seq<seq<Point>>, baseIndex: nat, n: nat)
    requires ValidStrings(strings) && baseIndex < |strings|
  {
    forall j :: baseIndex < j < n && j < |strings| ==>
      strings[j][0] != Last(strings[baseIndex]) && Last(strings[j]) != Last(strings[baseIndex])
  }

  lemma {:induction false} StuckEnds(strings: seq<seq<Point>>, baseIndex: nat, n: nat)
    requires ValidStrings(strings) && baseIndex < |strings| && n <= |strings|
    requires forall j :: 0 <= j < baseIndex ==> Closed(strings[j])
    requires Stuck(strings, baseIndex, |strings|) && !Closed(strings[baseIndex])
    ensures Ends(strings[..n], Last(strings[baseIndex])) % 2 == if n <= baseIndex then 0 else 1
  {
    if n > 0 {
      StuckEnds(strings, baseIndex, n - 1);
      assert strings[..n][..n - 1] == strings[..n - 1];
    }
  }

  /** The end of an open string has odd degree unless another string ends there. */
  lemma StuckIsClosed(strings: seq<seq<Point>>, baseIndex: nat)
    requires ValidStrings(strings) && baseIndex < |strings|
    requires forall j :: 0 <= j < baseIndex ==> Closed(strings[j])
    requires Stuck(strings, baseIndex, |strings|) && EvenDegrees(strings)
    ensures Closed(strings[baseIndex])
  {
    if !Closed(strings[baseIndex]) {
      StuckEnds(strings, baseIndex, |strings|);
      assert strings[..|strings|] == strings;
      EndsParity(strings, Last(strings[baseIndex]));
    }
  }

  ghost predicate SameEdges(strings: seq<seq<Point>>, strings': seq<seq<Point>>) {
    forall e :: TotalCount(strings', e) == TotalCount(strings, e)
  }

  // ---------------------------------------------------------------------
  // Straight points.
  // ---------------------------------------------------------------------

  /** b is no corner: it lies straight between a and c. */
  ghost predicate Ahead(a: Point, b: Point, c: Point) {
    || (a.y == b.y == c.y && (a.x < b.x < c.x || c.x < b.x < a.x))
    || (a.x == b.x == c.x && (a.y < b.y < c.y || c.y < b.y < a.y))
  }

  /** All points of a string but its ends are corners. */
  ghost predicate Bent(s: seq<Point>) {
    forall i {:trigger s[i]} :: 0 < i < |s| - 1 ==> !Ahead(s[i - 1], s[i], s[i + 1])
  }

  ghost predicate AllBent(strings: seq<seq<Point>>) {
    forall i :: 0 <= i < |strings| ==> Bent(strings[i])
  }

  datatype Way = North | East | South | West

  /** The way from one point to another on a straight segment. */
  function Towards(a: Point, b: Point): Way {
    if a.x < b.x then East else if b.x < a.x then West else if a.y < b.y then South else North
  }

  /** The unit edge that leaves p that way. */
  function EdgeAt(p: Point, way: Way): Edge {
    match way
    case North => Down(p.x, p.y - 1)
    case East => Across(p.x, p.y)
    case South => Down(p.x, p.y)
    case West => Across(p.x - 1, p.y)
  }

  /** The ways that a string leaves its ends. */
  function StartWay(s: seq<Point>): Way
    requires |s| >= 2
  {
    Towards(s[0], s[1])
  }

  function StopWay(s: seq<Point>): Way
    requires |s| >= 2
  {
    Towards(s[|s| - 1], s[|s| - 2])
  }

  /** Line by line from the left, the edge above a pixel before the one to its right. */
  ghost predicate Earlier(e: Edge, f: Edge) {
    e.y < f.y || (e.y == f.y && Position(e) < Position(f))
  }

  ghost function Position(e: Edge): int {
    match e
    case Across(x, _) => 2 * x
    case Down(x, _) => 2 * x - 1
  }

  /** All edges of the strings come before e. */
  ghost predicate AllEarlier(strings: seq<seq<Point>>, e: Edge) {
    forall f :: TotalCount(strings, f) > 0 ==> Earlier(f, e)
  }

  /** An edge of the strings goes up from the lattice point to the right of v. */
  ghost predicate RisesBeside(strings: seq<seq<Point>>, v: Point) {
    TotalCount(strings, Down(v.x + 1, v.y - 1)) > 0
  }

  /**
   * Strings as they are while edges are added in order: they have corners only, start to the right or downwards, and
   * never end on an edge from below. Only where an edge rises beside it do they end on an edge from the right, and only
   * then at the start of a string.
   */
  ghost predicate Drawn(strings: seq<seq<Point>>) {
    && ValidStrings(strings)
    && (forall i :: 0 <= i < |strings| ==> DrawnString(strings, strings[i]))
    && forall i, j :: 0 <= i < |strings| && 0 <= j < |strings| && Last(strings[j]) == strings[i][0]
         ==> StopWay(strings[j]) == East
  }

  ghost predicate DrawnString(strings: seq<seq<Point>>, s: seq<Point>)
    requires |s| >= 2
  {
    && Bent(s) && (StartWay(s) == East || StartWay(s) == South) && StopWay(s) != South
    && (StopWay(s) == East ==> RisesBeside(strings, Last(s)))
  }

  lemma {:induction false} CountedInTotal(strings: seq<seq<Point>>, i: nat, e: Edge)
    requires i < |strings|
    ensures StringCount(strings[i], e) <= TotalCount(strings, e)
  {
    if i < |strings| - 1 {
      CountedInTotal(strings[..|strings| - 1], i, e);
    }
  }

  /** The unit edges at both ends of a string are among its edges. */
  lemma EndsCount(s: seq<Point>)
    requires ValidString(s)
    ensures StringCount(s, EdgeAt(Last(s), StopWay(s))) > 0 && StringCount(s, EdgeAt(s[0], StartWay(s))) > 0
  {
    LastSegment(s);
    assert Straight(s[0], s[1]);
    StringCountFront(s, EdgeAt(s[0], StartWay(s)));
  }

  lemma EndsAreEarlier(strings: seq<seq<Point>>, i: nat, e: Edge)
    requires ValidStrings(strings) && i < |strings| && AllEarlier(strings, e)
    ensures Earlier(EdgeAt(Last(strings[i]), StopWay(strings[i])), e)
    ensures Earlier(EdgeAt(strings[i][0], StartWay(strings[i])), e)
    ensures TotalCount(strings, EdgeAt(Last(strings[i]), StopWay(strings[i]))) > 0
  {
    EndsCount(strings[i]);
    CountedInTotal(strings, i, EdgeAt(Last(strings[i]), StopWay(strings[i])));
    CountedInTotal(strings, i, EdgeAt(strings[i][0], StartWay(strings[i])));
  }

  ghost predicate UnitStep(p1: Point, p2: Point) {
    (p2.x == p1.x + 1 && p2.y == p1.y) || (p2.x == p1.x && p2.y == p1.y + 1)
  }

  /** No string starts where the next edge ends: it would start with a later edge. */
  lemma NoStartAhead(strings: seq<seq<Point>>, p1: Point, p2: Point, i: nat)
    requires Drawn(strings) && UnitStep(p1, p2) && AllEarlier(strings, UnitEdge(p1.x, p1.y, p2.x, p2.y))
    requires i < |strings|
    ensures strings[i][0] != p2
  {
    EndsAreEarlier(strings, i, UnitEdge(p1.x, p1.y, p2.x, p2.y));
    assert DrawnString(strings, strings[i]);
  }

  /** A string that the next edge prolongs from its far end ends there on an edge from above, and the edge is Across. */
  lemma FarEndComesDown(strings: seq<seq<Point>>, p1: Point, p2: Point, i: nat)
    requires Drawn(strings) && UnitStep(p1, p2) && AllEarlier(strings, UnitEdge(p1.x, p1.y, p2.x, p2.y))
    requires i < |strings| && Last(strings[i]) == p2
    ensures p1.y == p2.y && RisesBeside(strings, p1)
  {
    EndsAreEarlier(strings, i, UnitEdge(p1.x, p1.y, p2.x, p2.y));
  }

  /** s with one more unit step to p. */
  ghost predicate Prolonged(s: seq<Point>, p: Point, r: seq<Point>)
    requires |s| >= 2
  {
    && ValidString(r) && r[0] == s[0] && Last(r) == p
    && StartWay(r) == StartWay(s) && StopWay(r) == Towards(p, Last(s)) && (Bent(s) ==> Bent(r))
  }

  lemma ProlongKeepsDrawn(strings: seq<seq<Point>>, p1: Point, p2: Point, i: nat, far: bool, r: seq<Point>)
    requires Drawn(strings) && UnitStep(p1, p2) && AllEarlier(strings, UnitEdge(p1.x, p1.y, p2.x, p2.y))
    requires i < |strings| && Last(strings[i]) == if far then p2 else p1
    requires Prolonged(strings[i], if far then p1 else p2, r)
    requires forall e :: TotalCount(strings[i := r], e) >= TotalCount(strings, e)
    ensures Drawn(strings[i := r])
  {
    var after := strings[i := r];
    if far {
      FarEndComesDown(strings, p1, p2, i);
    }
    hide Bent, ValidString, TotalCount;
    forall j | 0 <= j < |strings|
      ensures DrawnString(after, after[j])
    {
      assert DrawnString(strings, strings[j]);
    }
    forall j, k | 0 <= j < |strings| && 0 <= k < |strings| && Last(after[k]) == after[j][0]
      ensures StopWay(after[k]) == East
    {
      if k == i && !far {
        NoStartAhead(strings, p1, p2, j);
      }
    }
  }

  lemma AppendKeepsDrawn(strings: seq<seq<Point>>, p1: Point, p2: Point)
    requires Drawn(strings) && UnitStep(p1, p2) && AllEarlier(strings, UnitEdge(p1.x, p1.y, p2.x, p2.y))
    requires forall i :: 0 <= i < |strings| ==> Last(strings[i]) != p1
    requires forall e :: TotalCount(strings + [[p1, p2]], e) >= TotalCount(strings, e)
    ensures Drawn(strings + [[p1, p2]])
  {
    var after := strings + [[p1, p2]];
    assert ValidString([p1, p2]) && Bent([p1, p2]);
    hide Bent, ValidString, TotalCount;
    forall j | 0 <= j < |after|
      ensures DrawnString(after, after[j])
    {
      if j < |strings| {
        assert DrawnString(strings, strings[j]);
      }
    }
    forall j, k | 0 <= j < |after| && 0 <= k < |after| && Last(after[k]) == after[j][0]
      ensures StopWay(after[k]) == East
    {
      if j < |strings| && k == |strings| {
        NoStartAhead(strings, p1, p2, j);
      }
    }
  }

  /** A string leaves p that way from one of its ends. */
  ghost predicate IsEnd(s: seq<Point>, p: Point, way: Way)
    requires |s| >= 2
  {
    (p == s[0] && way == StartWay(s)) || (p == Last(s) && way == StopWay(s))
  }

  ghost predicate HasEnd(strings: seq<seq<Point>>, p: Point, way: Way)
    requires ValidStrings(strings)
  {
    exists i :: 0 <= i < |strings| && IsEnd(strings[i], p, way)
  }

  /** A straight point between horizontal segments, with an edge that rises beside it. */
  ghost predicate Excused(strings: seq<seq<Point>>, a: Point, b: Point) {
    a.y == b.y && RisesBeside(strings, b)
  }

  ghost predicate TidyString(strings: seq<seq<Point>>, s: seq<Point>) {
    forall i {:trigger s[i]} :: 0 < i < |s| - 1 && Ahead(s[i - 1], s[i], s[i + 1]) ==> Excused(strings, s[i - 1], s[i])
  }

  /** Straight points, also those that come about where ends are joined, are excused. */
  ghost predicate Tidy(strings: seq<seq<Point>>) {
    && ValidStrings(strings)
    && (forall i :: 0 <= i < |strings| ==> TidyString(strings, strings[i]))
    && forall p :: !(HasEnd(strings, p, North) && HasEnd(strings, p, South))
                   && (HasEnd(strings, p, East) && HasEnd(strings, p, West) ==> RisesBeside(strings, p))
  }

  lemma DrawnIsTidy(strings: seq<seq<Point>>)
    requires Drawn(strings)
    ensures Tidy(strings)
  {
    NonEmptyStrings(strings);
    hide ValidString, TotalCount;
    forall i | 0 <= i < |strings|
      ensures TidyString(strings, strings[i])
    {
      assert DrawnString(strings, strings[i]);
    }
    hide Bent;
    forall p
      ensures !(HasEnd(strings, p, North) && HasEnd(strings, p, South))
      ensures HasEnd(strings, p, East) && HasEnd(strings, p, West) ==> RisesBeside(strings, p)
    {
      DrawnEnds(strings, p);
    }
  }

  lemma DrawnEnds(strings: seq<seq<Point>>, p: Point)
    requires Drawn(strings)
    ensures !(HasEnd(strings, p, North) && HasEnd(strings, p, South))
    ensures HasEnd(strings, p, East) && HasEnd(strings, p, West) ==> RisesBeside(strings, p)
  {
    NonEmptyStrings(strings);
    hide ValidString, TotalCount, Bent;
    if HasEnd(strings, p, East) && HasEnd(strings, p, West) {
      var i :| 0 <= i < |strings| && IsEnd(strings[i], p, East);
      var j :| 0 <= j < |strings| && IsEnd(strings[j], p, West);
      assert DrawnString(strings, strings[i]) && DrawnString(strings, strings[j]);
    }
  }

  lemma ReversedTidy(strings: seq<seq<Point>>, s: seq<Point>)
    requires TidyString(strings, s)
    ensures TidyString(strings, Reversed(s))
  {
    var t := Reversed(s);
    forall i | 0 < i < |t| - 1 && Ahead(t[i - 1], t[i], t[i + 1])
      ensures Excused(strings, t[i - 1], t[i])
    {
      assert Ahead(s[|s| - 1 - i - 1], s[|s| - 1 - i], s[|s| - 1 - i + 1]);
    }
  }

  lemma ReversedEnds(s: seq<Point>, p: Point, way: Way)
    requires ValidString(s)
    ensures IsEnd(Reversed(s), p, way) <==> IsEnd(s, p, way)
  {
  }

  /** Of two joined strings the joint is excused if it is straight. */
  lemma JoinTidy(strings: seq<seq<Point>>, base: seq<Point>, src: seq<Point>)
    requires Tidy(strings) && ValidString(base) && ValidString(src) && Last(base) == src[0]
    requires TidyString(strings, base) && TidyString(strings, src)
    requires HasEnd(strings, src[0], StopWay(base)) && HasEnd(strings, src[0], StartWay(src))
    ensures TidyString(strings, base + src[1..])
  {
    hide RisesBeside, HasEnd, ValidStrings;
    var joined, n := base + src[1..], |base|;
    forall i | 0 < i < |joined| - 1 && Ahead(joined[i - 1], joined[i], joined[i + 1])
      ensures Excused(strings, joined[i - 1], joined[i])
    {
      if i < n - 1 {
        assert Ahead(base[i - 1], base[i], base[i + 1]);
      } else if i > n - 1 {
        var k := i - n + 1;
        assert joined[i - 1] == src[k - 1] && joined[i] == src[k] && joined[i + 1] == src[k + 1];
      } else {
        assert joined[i - 1] == base[n - 2] && joined[i] == src[0] && joined[i + 1] == src[1];
      }
    }
  }

  lemma JoinEnds(base: seq<Point>, src: seq<Point>, p: Point, way: Way)
    requires ValidString(base) && ValidString(src) && Last(base) == src[0]
    ensures ValidString(base + src[1..])
    ensures IsEnd(base + src[1..], p, way) ==> IsEnd(base, p, way) || IsEnd(src, p, way)
  {
    JoinValid(base, src);
  }

  lemma TidySameEdges(strings: seq<seq<Point>>, strings': seq<seq<Point>>, s: seq<Point>)
    requires TidyString(strings, s) && SameEdges(strings, strings')
    ensures TidyString(strings', s)
  {
  }

  lemma SpliceKeepsTidy(strings: seq<seq<Point>>, baseIndex: nat, srcIndex: nat, src: seq<Point>, joined: seq<Point>)
    requires Tidy(strings) && baseIndex < srcIndex < |strings|
    requires src == strings[srcIndex] || src == Reversed(strings[srcIndex])
    requires Last(strings[baseIndex]) == src[0] && joined == strings[baseIndex] + src[1..]
    requires ValidStrings(Spliced(strings, baseIndex, srcIndex, joined))
    requires SameEdges(strings, Spliced(strings, baseIndex, srcIndex, joined))
    ensures Tidy(Spliced(strings, baseIndex, srcIndex, joined))
  {
    var base, after := strings[baseIndex], Spliced(strings, baseIndex, srcIndex, joined);
    ReversedValid(strings[srcIndex]);
    ReversedTidy(strings, strings[srcIndex]);
    JoinedIsTidy(strings, baseIndex, srcIndex, src, joined);
    forall i | 0 <= i < |after|
      ensures TidyString(after, after[i])
    {
      assert after[i] == joined || after[i] in strings;
      TidySameEdges(strings, after, after[i]);
    }
    forall p, way | HasEnd(after, p, way)
      ensures HasEnd(strings, p, way)
    {
      SpliceEnds(strings, baseIndex, srcIndex, src, joined, p, way);
    }
    assert forall p :: RisesBeside(after, p) <==> RisesBeside(strings, p);
    hide HasEnd, RisesBeside, SameEdges, TidyString;
    forall p
      ensures !(HasEnd(after, p, North) && HasEnd(after, p, South))
              && (HasEnd(after, p, East) && HasEnd(after, p, West) ==> RisesBeside(after, p))
    {
    }
  }

  lemma JoinedIsTidy(strings: seq<seq<Point>>, baseIndex: nat, srcIndex: nat, src: seq<Point>, joined: seq<Point>)
    requires Tidy(strings) && baseIndex < srcIndex < |strings| && ValidString(src) && TidyString(strings, src)
    requires src == strings[srcIndex] || src == Reversed(strings[srcIndex])
    requires Last(strings[baseIndex]) == src[0] && joined == strings[baseIndex] + src[1..]
    ensures TidyString(strings, joined)
  {
    var base := strings[baseIndex];
    ReversedEnds(strings[srcIndex], src[0], StartWay(src));
    assert IsEnd(base, src[0], StopWay(base)) && IsEnd(strings[srcIndex], src[0], StartWay(src));
    JoinTidy(strings, base, src);
  }

  lemma SpliceEnds(strings: seq<seq<Point>>, baseIndex: nat, srcIndex: nat, src: seq<Point>, joined: seq<Point>,
                   p: Point, way: Way)
    requires ValidStrings(strings) && baseIndex < srcIndex < |strings| && ValidString(src)
    requires src == strings[srcIndex] || src == Reversed(strings[srcIndex])
    requires Last(strings[baseIndex]) == src[0] && joined == strings[baseIndex] + src[1..]
    requires ValidStrings(Spliced(strings, baseIndex, srcIndex, joined))
    requires HasEnd(Spliced(strings, baseIndex, srcIndex, joined), p, way)
    ensures HasEnd(strings, p, way)
  {
    var after := Spliced(strings, baseIndex, srcIndex, joined);
    var i :| 0 <= i < |after| && IsEnd(after[i], p, way);
    if i == baseIndex {
      JoinEnds(strings[baseIndex], src, p, way);
      ReversedEnds(strings[srcIndex], p, way);
    } else {
      assert after[i] == strings[if i == srcIndex then |strings| - 1 else i];
    }
  }

  /** No string from index n on begins or ends at v. */
  ghost predicate EndElsewhere(strings: seq<seq<Point>>, n: nat, v: Point)
    requires ValidStrings(strings)
  {
    forall j :: n <= j < |strings| ==> strings[j][0] != v && Last(strings[j]) != v
  }

  /** The points at which strings from index n on begin or end are among those of before. */
  ghost predicate NoNewEnds(strings: seq<seq<Point>>, strings': seq<seq<Point>>, n: nat)
    requires ValidStrings(strings) && ValidStrings(strings')
  {
    forall v :: EndElsewhere(strings, n, v) ==> EndElsewhere(strings', n, v)
  }

  /** Earlier strings stay apart from all that follows them. */
  lemma StaysApart(before: seq<seq<Point>>, after: seq<seq<Point>>, n: nat)
    requires ValidStrings(before) && ValidStrings(after) && n < |after| <= |before|
    requires NoNewEnds(before, after, n) && Stuck(after, n, |after|) && forall j :: 0 <= j < n ==> after[j] == before[j]
    requires forall i :: 0 <= i < n ==> EndElsewhere(before, i + 1, Last(before[i]))
    ensures forall i :: 0 <= i < n + 1 ==> EndElsewhere(after, i + 1, Last(after[i]))
  {
    NonEmptyStrings(after);
    NonEmptyStrings(before);
    hide ValidString;
    forall i | 0 <= i < n
      ensures EndElsewhere(after, i + 1, Last(after[i]))
    {
      assert EndElsewhere(before, n, Last(before[i]));
      assert EndElsewhere(after, n, Last(after[i]));
      forall j | i < j < n
        ensures after[j][0] != Last(after[i]) && Last(after[j]) != Last(after[i])
      {
        assert after[j] == before[j];
      }
    }
  }

  lemma SpliceEndsElsewhere(strings: seq<seq<Point>>, baseIndex: nat, srcIndex: nat, src: seq<Point>,
                            joined: seq<Point>)
    requires ValidStrings(strings) && baseIndex < srcIndex < |strings|
    requires src == strings[srcIndex] || src == Reversed(strings[srcIndex])
    requires Last(strings[baseIndex]) == src[0] && joined == strings[baseIndex] + src[1..]
    requires ValidStrings(Spliced(strings, baseIndex, srcIndex, joined))
    ensures NoNewEnds(strings, Spliced(strings, baseIndex, srcIndex, joined), baseIndex)
  {
    var after := Spliced(strings, baseIndex, srcIndex, joined);
    NonEmptyStrings(strings);
    assert joined[0] == strings[baseIndex][0] && Last(joined) == Last(src);
    forall v | EndElsewhere(strings, baseIndex, v)
      ensures EndElsewhere(after, baseIndex, v)
    {
      forall j | baseIndex <= j < |after|
        ensures after[j][0] != v && Last(after[j]) != v
      {
        assert j == baseIndex || after[j] == strings[if j == srcIndex then |strings| - 1 else j];
      }
    }
  }

  // ---------------------------------------------------------------------
  // What is written.
  // ---------------------------------------------------------------------

  /** The point before point i of a closed ring. */
  function Previous(ring: seq<Point>, i: nat): Point
    requires i < |ring| - 1
  {
    if i == 0 then ring[|ring| - 2] else ring[i - 1]
  }

  /** Around the whole ring, a point is straight only between horizontal segments, and if an edge rises beside it. */
  ghost predicate TidyRing(strings: seq<seq<Point>>, ring: seq<Point>) {
    forall i {:trigger ring[i]} :: 0 <= i < |ring| - 1 && Ahead(Previous(ring, i), ring[i], ring[i + 1]) ==>
      ring[i].y == ring[i + 1].y && RisesBeside(strings, ring[i])
  }

  lemma TidyRings(strings: seq<seq<Point>>, j: nat)
    requires Tidy(strings) && j < |strings| && Closed(strings[j])
    ensures TidyRing(strings, strings[j])
  {
    var ring := strings[j];
    assert TidyString(strings, ring);
    hide RisesBeside, TidyString;
    forall i | 0 <= i < |ring| - 1 && Ahead(Previous(ring, i), ring[i], ring[i + 1])
      ensures ring[i].y == ring[i + 1].y && RisesBeside(strings, ring[i])
    {
      if i > 0 {
        StringStraight(strings, ring, i);
      } else {
        assert IsEnd(ring, ring[0], StartWay(ring)) && IsEnd(ring, ring[0], StopWay(ring));
        assert HasEnd(strings, ring[0], StartWay(ring)) && HasEnd(strings, ring[0], StopWay(ring));
      }
    }
  }

  lemma StringStraight(strings: seq<seq<Point>>, s: seq<Point>, i: nat)
    requires TidyString(strings, s) && 0 < i < |s| - 1 && Ahead(s[i - 1], s[i], s[i + 1])
    ensures s[i].y == s[i + 1].y && RisesBeside(strings, s[i])
  {
    hide RisesBeside;
  }

  // ---------------------------------------------------------------------
  // The class.
  // ---------------------------------------------------------------------

  /** The unit edge between two neighbouring lattice points, smaller one first. */
  function UnitEdge(x1: int, y1: int, x2: int, y2: int): Edge {
    if y1 == y2 then Across(x1, y1) else Down(x1, y1)
  }

  lemma UnitCovers(x1: int, y1: int, x2: int, y2: int, e: Edge)
    requires (x2 == x1 + 1 && y2 == y1) || (x2 == x1 && y2 == y1 + 1)
    ensures Covers(Point(x1, y1), Point(x2, y2), e) <==> e == UnitEdge(x1, y1, x2, y2)
    ensures Covers(Point(x2, y2), Point(x1, y1), e) <==> e == UnitEdge(x1, y1, x2, y2)
  {
  }

  class RPolygonF<T> {
    const polygonValue: T
    var lastLineUpdated: int
    var arcs: seq<seq<Point>>

    ghost predicate Valid()
      reads this
    {
      ValidStrings(arcs)
    }

    constructor (newPolyValue: T)
      ensures Valid() && arcs == [] && polygonValue == newPolyValue && lastLineUpdated == -1
    {
      polygonValue, lastLineUpdated := newPolyValue, -1;
      arcs := [];
    }

    /** Adds the unit edge from (x1, y1) to (x2, y2), to an existing string if one
        ends at either point. */
    method AddSegment(x1: int, y1: int, x2: int, y2: int)
      requires Valid()
      requires (x2 == x1 + 1 && y2 == y1) || (x2 == x1 && y2 == y1 + 1)
      modifies this
      ensures Valid() && lastLineUpdated == Max(y1, y2)
      ensures forall e :: TotalCount(arcs, e) == TotalCount(old(arcs), e) + Count(e == UnitEdge(x1, y1, x2, y2))
      ensures AllBent(old(arcs)) ==> AllBent(arcs)
      ensures Drawn(old(arcs)) && AllEarlier(old(arcs), UnitEdge(x1, y1, x2, y2)) ==> Drawn(arcs)
    {
      hide Drawn, AllEarlier;
      lastLineUpdated := Max(y1, y2);
      var p1, p2 := Point(x1, y1), Point(x2, y2);
      for stringIndex := 0 to |arcs|
        invariant arcs == old(arcs) && p1 == Point(x1, y1) && p2 == Point(x2, y2)
        invariant forall j :: 0 <= j < stringIndex ==> Last(arcs[j]) != p1
      {
        var arc := arcs[stringIndex];
        if Last(arc) == p1 {
          p1, p2 := p2, p1;
        }
        if Last(arc) == p2 {
          arc := ExtendString(arc, p1);
          forall e
            ensures TotalCount(arcs[stringIndex := arc], e) == TotalCount(arcs, e) +
                    Count(e == UnitEdge(x1, y1, x2, y2))
          {
            UpdateCount(arcs, stringIndex, arc, e);
            UnitCovers(x1, y1, x2, y2, e);
          }
          if Drawn(arcs) && AllEarlier(arcs, UnitEdge(x1, y1, x2, y2)) {
            ProlongKeepsDrawn(arcs, Point(x1, y1), Point(x2, y2), stringIndex, p1 == Point(x1, y1), arc);
          }
          arcs := arcs[stringIndex := arc];
          return;
        }
      }
      assert (arcs + [[p1, p2]])[..|arcs|] == arcs;
      forall e
        ensures TotalCount(arcs + [[p1, p2]], e) == TotalCount(arcs, e) + Count(e == UnitEdge(x1, y1, x2, y2))
      {
        PairCount(p1, p2, e);
        UnitCovers(x1, y1, x2, y2, e);
      }
      if Drawn(arcs) && AllEarlier(arcs, UnitEdge(x1, y1, x2, y2)) {
        AppendKeepsDrawn(arcs, p1, p2);
      }
      arcs := arcs + [[p1, p2]];
    }

    /** Appends string srcString, as it is or reversed, to string baseString and
        moves the last string into its place. */
    method Merge(baseString: nat, srcString: nat, heading: int)
      requires Valid() && baseString < srcString < |arcs| && (heading == 1 || heading == -1)
      requires Last(arcs[baseString]) == if heading == 1 then arcs[srcString][0] else Last(arcs[srcString])
      modifies this`arcs
      ensures Valid() && SameEdges(old(arcs), arcs) && |arcs| == |old(arcs)| - 1
      ensures forall j :: 0 <= j < baseString ==> arcs[j] == old(arcs[j])
      ensures (Tidy(old(arcs)) ==> Tidy(arcs)) && NoNewEnds(old(arcs), arcs, baseString)
    {
      ghost var src := if heading == 1 then arcs[srcString] else Reversed(arcs[srcString]);
      var baseArc := AppendArc(arcs[baseString], arcs[srcString], heading);
      SpliceKeepsEdges(arcs, baseString, srcString, src, baseArc);
      SpliceEndsElsewhere(arcs, baseString, srcString, src, baseArc);
      if Tidy(arcs) {
        SpliceKeepsTidy(arcs, baseString, srcString, src, baseArc);
      }
      hide ValidStrings, SameEdges, Tidy, NoNewEnds;
      arcs := arcs[baseString := baseArc];
      if srcString < |arcs| - 1 {
        arcs := arcs[srcString := Last(arcs)];
      }
      arcs := arcs[..|arcs| - 1];
      assert arcs == Spliced(old(arcs), baseString, srcString, baseArc);
    }

    /** Splices the strings into rings. */
    method Coalesce()
      requires Valid()
      modifies this`arcs
      ensures Valid() && SameEdges(old(arcs), arcs)
      ensures EvenDegrees(old(arcs)) ==> forall j :: 0 <= j < |arcs| ==> Closed(arcs[j])
      ensures EvenDegrees(old(arcs)) ==> forall i, j :: 0 <= i < j < |arcs| ==> arcs[i][0] != arcs[j][0]
      ensures Tidy(old(arcs)) ==> Tidy(arcs)
    {
      hide Tidy;
      var baseString := 0;
      while baseString < |arcs|
        invariant Valid() && SameEdges(old(arcs), arcs) && baseString <= |arcs|
        invariant EvenDegrees(old(arcs)) ==> forall j :: 0 <= j < baseString ==> Closed(arcs[j])
        invariant Tidy(old(arcs)) ==> Tidy(arcs)
        invariant forall i :: 0 <= i < baseString ==> EndElsewhere(arcs, i + 1, Last(arcs[i]))
        decreases |arcs| - baseString
      {
        ghost var before := arcs;
        CloseBase(baseString);
        StaysApart(before, arcs, baseString);
        if EvenDegrees(old(arcs)) {
          SameDegrees(old(arcs), arcs);
          StuckIsClosed(arcs, baseString);
        }
        baseString := baseString + 1;
      }
    }

    /** Merges following strings into string baseString until none fits its end. */
    method CloseBase(baseString: nat)
      requires Valid() && baseString < |arcs|
      modifies this`arcs
      ensures Valid() && SameEdges(old(arcs), arcs) && baseString < |arcs| <= |old(arcs)|
      ensures forall j :: 0 <= j < baseString ==> arcs[j] == old(arcs[j])
      ensures Stuck(arcs, baseString, |arcs|)
      ensures (Tidy(old(arcs)) ==> Tidy(arcs)) && NoNewEnds(old(arcs), arcs, baseString)
    {
      hide SameEdges, ValidString, Tidy;
      SameEdgesSelf(arcs);
      var mergeHappened := true;
      while mergeHappened
        invariant Valid() && SameEdges(old(arcs), arcs) && baseString < |arcs| <= |old(arcs)|
        invariant forall j :: 0 <= j < baseString ==> arcs[j] == old(arcs[j])
        invariant (Tidy(old(arcs)) ==> Tidy(arcs)) && NoNewEnds(old(arcs), arcs, baseString)
        invariant !mergeHappened ==> Stuck(arcs, baseString, |arcs|)
        decreases |arcs|, mergeHappened
      {
        mergeHappened := false;
        ghost var n := |arcs|;
        var stringIndex := baseString + 1;
        while stringIndex < |arcs|
          invariant Valid() && SameEdges(old(arcs), arcs) && baseString < |arcs| <= n && baseString < stringIndex
          invariant forall j :: 0 <= j < baseString ==> arcs[j] == old(arcs[j])
          invariant (Tidy(old(arcs)) ==> Tidy(arcs)) && NoNewEnds(old(arcs), arcs, baseString)
          invariant if mergeHappened then |arcs| < n else Stuck(arcs, baseString, stringIndex)
          decreases |arcs| - stringIndex
        {
          ghost var before := arcs;
          NonEmptyStrings(arcs);
          if Last(arcs[baseString]) == arcs[stringIndex][0] {
            Merge(baseString, stringIndex, 1);
            mergeHappened := true;
            SameEdgesTransitive(old(arcs), before, arcs);
          } else if Last(arcs[baseString]) == Last(arcs[stringIndex]) {
            Merge(baseString, stringIndex, -1);
            mergeHappened := true;
            SameEdgesTransitive(old(arcs), before, arcs);
          }
          stringIndex := stringIndex + 1;
        }
      }
    }
  }

  lemma NonEmptyStrings(strings: seq<seq<Point>>)
    requires ValidStrings(strings)
    ensures forall i :: 0 <= i < |strings| ==> |strings[i]| >= 2
  {
  }

  lemma SameEdgesSelf(strings: seq<seq<Point>>)
    ensures SameEdges(strings, strings)
  {
  }

  lemma SameEdgesTransitive(a: seq<seq<Point>>, b: seq<seq<Point>>, c: seq<seq<Point>>)
    requires SameEdges(a, b) && SameEdges(b, c)
    ensures SameEdges(a, c)
  {
  }

  lemma SameDegrees(a: seq<seq<Point>>, b: seq<seq<Point>>)
    requires SameEdges(a, b) && EvenDegrees(a)
    ensures EvenDegrees(b)
  {
    forall v
      ensures Degree(b, v) == Degree(a, v)
    {
    }
  }

  lemma SpliceKeepsEdges(strings: seq<seq<Point>>, baseIndex: nat, srcIndex: nat, src: seq<Point>, joined: seq<Point>)
    requires ValidStrings(strings) && baseIndex < srcIndex < |strings|
    requires src == strings[srcIndex] || src == Reversed(strings[srcIndex])
    requires Last(strings[baseIndex]) == src[0] && joined == strings[baseIndex] + src[1..]
    ensures ValidStrings(Spliced(strings, baseIndex, srcIndex, joined))
    ensures SameEdges(strings, Spliced(strings, baseIndex, srcIndex, joined))
  {
    ReversedValid(strings[srcIndex]);
    JoinValid(strings[baseIndex], src);
    forall e
      ensures TotalCount(Spliced(strings, baseIndex, srcIndex, joined), e) == TotalCount(strings, e)
    {
      ReversedCount(strings[srcIndex], e);
      JoinCount(strings[baseIndex], src, e);
      SplicedCount(strings, baseIndex, srcIndex, joined, e);
    }
  }

  /** Appends all points but the first, or from the end on all but the last. */
  method AppendArc(baseArc: seq<Point>, arc: seq<Point>, heading: int) returns (r: seq<Point>)
    requires |arc| > 0 && (heading == 1 || heading == -1)
    ensures r == baseArc + (if heading == 1 then arc else Reversed(arc))[1..]
  {
    ghost var src := if heading == 1 then arc else Reversed(arc);
    var i, stop := if heading == 1 then 1 else |arc| - 2, if heading == 1 then |arc| else -1;
    ghost var k := 1;
    r := baseArc;
    while i != stop
      invariant 1 <= k <= |arc| && i == (if heading == 1 then k else |arc| - 1 - k)
      invariant r == baseArc + src[1..k]
      decreases |arc| - k
    {
      r := r + [arc[i]];
      i, k := i + heading, k + 1;
    }
    assert src[1..k] == src[1..];
  }

  lemma ProlongedByPop(s: seq<Point>, p: Point)
    requires ValidString(s) && GoesOn(s[|s| - 2], s[|s| - 1], p)
    ensures Prolonged(s, p, s[..|s| - 1] + [p])
  {
    hide GoesOn, Bent;
    var a, b := s[|s| - 2], s[|s| - 1];
    PopCollinear(s, p, Across(0, 0));
    GoesOnWay(a, b, p);
    if Bent(s) {
      PopKeepsBent(s, p);
    }
  }

  lemma PopKeepsBent(s: seq<Point>, p: Point)
    requires |s| >= 2 && Bent(s)
    requires |s| > 2 ==> (Ahead(s[|s| - 3], s[|s| - 2], p) <==> Ahead(s[|s| - 3], s[|s| - 2], s[|s| - 1]))
    ensures Bent(s[..|s| - 1] + [p])
  {
    var r := s[..|s| - 1] + [p];
    hide Ahead;
    forall i | 0 < i < |r| - 1
      ensures !Ahead(r[i - 1], r[i], r[i + 1])
    {
      assert !Ahead(s[i - 1], s[i], s[i + 1]);
    }
  }

  lemma GoesOnWay(a: Point, b: Point, c: Point)
    requires Straight(a, b) && GoesOn(a, b, c)
    ensures Straight(a, c) && Towards(a, c) == Towards(a, b) && Towards(c, a) == Towards(c, b)
    ensures forall d :: Ahead(d, a, c) <==> Ahead(d, a, b)
  {
    ExtendSegment(a, b, c, Across(0, 0));
    var n := Max(Abs(a.x - b.x), Abs(a.y - b.y));
    if c.x != b.x {
      assert c.x - b.x == 1 || c.x - b.x == -1;
    } else {
      assert c.y - b.y == 1 || c.y - b.y == -1;
    }
  }

  lemma ProlongedByPoint(s: seq<Point>, p: Point)
    requires ValidString(s) && Abs(p.x - Last(s).x) + Abs(p.y - Last(s).y) == 1
    requires !GoesOn(s[|s| - 2], s[|s| - 1], p)
    ensures Prolonged(s, p, s + [p])
  {
    var a, b, r := s[|s| - 2], s[|s| - 1], s + [p];
    AppendPoint(s, p, Across(0, 0));
    if Bent(s) {
      forall i | 0 < i < |r| - 1
        ensures !Ahead(r[i - 1], r[i], r[i + 1])
      {
        if i < |s| - 1 {
          assert !Ahead(s[i - 1], s[i], s[i + 1]);
        } else {
          AheadGoesOn(a, b, p);
        }
      }
    }
  }

  /** One step straight on is what the test for a collinear point finds. */
  lemma AheadGoesOn(a: Point, b: Point, c: Point)
    requires Abs(c.x - b.x) + Abs(c.y - b.y) == 1
    ensures Ahead(a, b, c) ==> GoesOn(a, b, c)
  {
  }

  /** Lengthens a string by the unit step to p, popping a point on the way. */
  method ExtendString(arc: seq<Point>, p: Point) returns (r: seq<Point>)
    requires ValidString(arc)
    requires Abs(p.x - Last(arc).x) + Abs(p.y - Last(arc).y) == 1
    ensures Prolonged(arc, p, r)
    ensures forall e :: StringCount(r, e) == StringCount(arc, e) + Count(Covers(Last(arc), p, e))
  {
    var a, b := arc[|arc| - 2], arc[|arc| - 1];
    hide Collinear, Prolonged;
    if Collinear(a, b, p) {
      r := arc[..|arc| - 1];
      r := r + [p];
      ProlongedByPop(arc, p);
      forall e
        ensures StringCount(r, e) == StringCount(arc, e) + Count(Covers(b, p, e))
      {
        PopCollinear(arc, p, e);
      }
    } else {
      r := arc + [p];
      ProlongedByPoint(arc, p);
      forall e
        ensures StringCount(r, e) == StringCount(arc, e) + Count(Covers(b, p, e))
      {
        AppendPoint(arc, p, e);
      }
    }
  }
}

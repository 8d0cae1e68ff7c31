/** Contour lines under construction: lines of points that grow at their tail and are merged at their ends. */
module ContourItems {
  import opened Numbers

  const JOIN_DIST := 0.0001

  datatype Point = Point(x: real, y: real)

  /** A segment as it was supplied. */
  datatype Segment = Segment(level: real, from: Point, to: Point) {
    function Reversed(): Segment {
      Segment(level, to, from)
    }

    /** The same segment, in either direction. */
    predicate Same(s: Segment) {
      this == s || this == s.Reversed()
    }
  }

  /** A segment as the tracing of a pixel supplies it, and whether the high side is on its left. */
  datatype Call = Call(segment: Segment, leftHigh: bool)

  /** A line as it is written. */
  datatype Polyline = Polyline(level: real, points: seq<Point>)

  /** Line ends that match for joining purposes. */
  predicate Near(p: Point, q: Point) {
    AbsReal(p.x - q.x) < JOIN_DIST && AbsReal(p.y - q.y) < JOIN_DIST
  }

  /**
   * The line consists of the segments: every one of its points is near the ends of the segments that meet there, so
   * that an end has moved less than the joining distance, and the ends of the line are where they were supplied.
   */
  ghost predicate Traces(level: real, points: seq<Point>, segs: seq<Segment>) {
    && |points| == |segs| + 1
    && |segs| >= 1
    && (forall i :: 0 <= i < |segs| ==> Follows(level, points[i], points[i + 1], segs[i]))
    && points[0] == segs[0].from
    && points[|segs|] == segs[|segs| - 1].to
  }

  ghost predicate Follows(level: real, p: Point, q: Point, s: Segment) {
    s.level == level && Near(p, s.from) && Near(q, s.to)
  }

  function Reverse<T>(s: seq<T>): (r: seq<T>)
    ensures |r| == |s| && forall i :: 0 <= i < |s| ==> r[i] == s[|s| - 1 - i]
  {
    seq(|s|, i requires 0 <= i < |s| => s[|s| - 1 - i])
  }

  ghost function ReverseSegments(segs: seq<Segment>): (r: seq<Segment>)
    ensures |r| == |segs| && forall i :: 0 <= i < |segs| ==> r[i] == segs[|segs| - 1 - i].Reversed()
  {
    seq(|segs|, i requires 0 <= i < |segs| => segs[|segs| - 1 - i].Reversed())
  }

  /** How often a segment, in either direction, occurs. */
  ghost function Count(segs: seq<Segment>, s: Segment): nat {
    if segs == [] then 0 else Count(segs[..|segs| - 1], s) + One(segs[|segs| - 1], s)
  }

  ghost function One(s: Segment, t: Segment): nat {
    if s.Same(t) then 1 else 0
  }

  lemma {:induction false} CountConcat(a: seq<Segment>, b: seq<Segment>, s: Segment)
    ensures Count(a + b, s) == Count(a, s) + Count(b, s)
  {
    hide One;
    if b == [] {
      assert a + b == a;
    } else {
      CountConcat(a, b[..|b| - 1], s);
      assert (a + b)[..|a + b| - 1] == a + b[..|b| - 1];
    }
  }

  lemma {:induction false} CountReverse(segs: seq<Segment>, s: Segment)
    ensures Count(ReverseSegments(segs), s) == Count(segs, s)
  {
    if segs == [] {
    } else {
      var n := |segs| - 1;
      CountReverse(segs[..n], s);
      assert ReverseSegments(segs) == [segs[n].Reversed()] + ReverseSegments(segs[..n]);
      CountConcat([segs[n].Reversed()], ReverseSegments(segs[..n]), s);
      CountOne(segs[n], s);
    }
  }

  lemma CountOne(t: Segment, s: Segment)
    ensures Count([t], s) == One(t, s) == One(t.Reversed(), s) == Count([t.Reversed()], s)
  {
    assert [t][..0] == [] && [t.Reversed()][..0] == [];
  }

  /** One collection of segments has the segments of two others. */
  ghost predicate Joins(c: seq<Segment>, a: seq<Segment>, b: seq<Segment>) {
    forall s :: Count(c, s) == Count(a, s) + Count(b, s)
  }

  lemma ConcatJoins(a: seq<Segment>, b: seq<Segment>)
    ensures Joins(a + b, a, b) && Joins(a + b, b, a)
    ensures Joins(a + ReverseSegments(b), a, b) && Joins(ReverseSegments(b) + a, a, b)
  {
    forall s
      ensures Count(a + b, s) == Count(a, s) + Count(b, s)
      ensures Count(a + ReverseSegments(b), s) == Count(a, s) + Count(b, s)
      ensures Count(ReverseSegments(b) + a, s) == Count(a, s) + Count(b, s)
    {
      CountConcat(a, b, s);
      CountReverse(b, s);
      CountConcat(a, ReverseSegments(b), s);
      CountConcat(ReverseSegments(b), a, s);
    }
  }

  lemma TraceEnds(level: real, points: seq<Point>, segs: seq<Segment>)
    requires Traces(level, points, segs)
    ensures |points| == |segs| + 1 >= 2
  {
  }

  lemma TraceReverse(level: real, points: seq<Point>, segs: seq<Segment>)
    requires Traces(level, points, segs)
    ensures Traces(level, Reverse(points), ReverseSegments(segs))
  {
    forall i | 0 <= i < |segs|
      ensures Follows(level, Reverse(points)[i], Reverse(points)[i + 1], ReverseSegments(segs)[i])
    {
      var j := |segs| - 1 - i;
      assert Follows(level, points[j], points[j + 1], segs[j]);
    }
  }

  /** A line goes on where another one ends: the tail of the first one is the point they share from now on. */
  lemma TraceConcat(level: real, a: seq<Point>, sa: seq<Segment>, b: seq<Point>, sb: seq<Segment>)
    requires Traces(level, a, sa) && Traces(level, b, sb) && Near(a[|a| - 1], b[0])
    ensures Traces(level, a + b[1..], sa + sb)
  {
    var c, s := a + b[1..], sa + sb;
    forall i | 0 <= i < |s|
      ensures Follows(level, c[i], c[i + 1], s[i])
    {
      if i < |sa| {
        assert Follows(level, a[i], a[i + 1], sa[i]);
      } else {
        assert Follows(level, b[i - |sa|], b[i - |sa| + 1], sb[i - |sa|]);
      }
    }
  }

  /** Likewise, but the head of the second line is the point they share. */
  lemma TracePrepend(level: real, a: seq<Point>, sa: seq<Segment>, b: seq<Point>, sb: seq<Segment>)
    requires Traces(level, a, sa) && Traces(level, b, sb) && Near(b[0], a[|a| - 1])
    ensures Traces(level, a[..|a| - 1] + b, sa + sb)
  {
    var c, s := a[..|a| - 1] + b, sa + sb;
    forall i | 0 <= i < |s|
      ensures Follows(level, c[i], c[i + 1], s[i])
    {
      if i < |sa| {
        assert Follows(level, a[i], a[i + 1], sa[i]);
      } else {
        assert Follows(level, b[i - |sa|], b[i - |sa| + 1], sb[i - |sa|]);
      }
    }
  }

  lemma TraceOne(s: Segment)
    ensures Traces(s.level, [s.from, s.to], [s])
  {
  }

  // ---------------------------------------------------------------------
  // Ends of lines.
  // ---------------------------------------------------------------------

  ghost function Ends(points: seq<Point>): set<Point> {
    if points == [] then {} else {points[0], points[|points| - 1]}
  }

  /** An end of one line is near an end of the other one. */
  ghost predicate EndsNear(a: seq<Point>, b: seq<Point>) {
    exists p, q :: p in Ends(a) && q in Ends(b) && Near(p, q)
  }

  ghost predicate EndsBelow(points: seq<Point>, y: real) {
    forall p :: p in Ends(points) ==> p.y <= y
  }

  /** Near means nearer than a ten-thousandth in both coordinates. */
  lemma NearMeans(p: Point, q: Point)
    ensures Near(p, q) <==> -0.0001 < p.x - q.x < 0.0001 && -0.0001 < p.y - q.y < 0.0001
  {
  }

  lemma NearSymmetric(p: Point, q: Point)
    ensures Near(p, q) <==> Near(q, p)
  {
  }

  lemma EndsNearSymmetric(a: seq<Point>, b: seq<Point>)
    ensures EndsNear(a, b) <==> EndsNear(b, a)
  {
  }

  lemma ReverseEnds(points: seq<Point>)
    ensures Ends(Reverse(points)) == Ends(points)
  {
  }

  /** No two lines of one level have ends near each other. */
  ghost predicate Apart(lines: seq<Polyline>) {
    forall i, j :: 0 <= i < j < |lines| && lines[i].level == lines[j].level
      ==> !EndsNear(lines[i].points, lines[j].points)
  }

  /** A line of a level whose ends are not near any of these. */
  ghost predicate AwayFrom(lines: seq<Polyline>, level: real, points: seq<Point>) {
    forall i :: 0 <= i < |lines| && lines[i].level == level ==> !EndsNear(lines[i].points, points)
  }

  /** All ends of lines are above y: lines further down the raster have a greater y. */
  ghost predicate AllAbove(lines: seq<Polyline>, y: real) {
    forall i :: 0 <= i < |lines| ==> EndsBelow(lines[i].points, y)
  }

  /** Along some segment of the line, which is the one supplied, the high side is on the right; y grows downward. */
  ghost predicate HighOnRight(points: seq<Point>, c: Call) {
    exists k :: 0 <= k < |points| - 1 && RunsAlong(points[k], points[k + 1], c)
  }

  /** From p to q the segment runs with its high side on the right. */
  ghost predicate RunsAlong(p: Point, q: Point, c: Call) {
    if c.leftHigh then Near(p, c.segment.to) && Near(q, c.segment.from)
    else Near(p, c.segment.from) && Near(q, c.segment.to)
  }

  /**
   * What has been written, what has been supplied, and how far down the raster lines end: those that have not been
   * accessed recently, and all.
   */
  datatype Stage = Stage(written: seq<Polyline>, calls: set<Call>, unused: real, used: real)

  /** The line of a level can be taken further: it is away from those written, and has been started with a call. */
  ghost predicate InStage(st: Stage, level: real, points: seq<Point>, accessed: bool, start: Call) {
    && AwayFrom(st.written, level, points) && EndsBelow(points, if accessed then st.used else st.unused)
    && start in st.calls && start.segment.level == level
  }

  /** Points so far down the raster that they are not near the end of any line written, but not too far down. */
  ghost predicate Fresh(st: Stage, p: Point) {
    p.y <= st.used && AllAbove(st.written, p.y - 0.5)
  }

  /** A line goes on at fresh points. */
  lemma GrownInStage(st: Stage, level: real, points: seq<Point>, accessed: bool, start: Call, points': seq<Point>,
                     a: Point, b: Point)
    requires InStage(st, level, points, accessed, start) && st.unused <= st.used && Fresh(st, a) && Fresh(st, b)
    requires Ends(points') <= Ends(points) + {a, b}
    ensures InStage(st, level, points', true, start)
  {
    hide Near;
    forall i | 0 <= i < |st.written| && st.written[i].level == level
      ensures !EndsNear(st.written[i].points, points')
    {
      forall p, q | p in Ends(st.written[i].points) && q in Ends(points')
        ensures !Near(p, q)
      {
        if q == a || q == b {
          FarApart(p, q);
        }
      }
    }
  }

  /** A line begins at fresh points. */
  lemma NewInStage(st: Stage, level: real, a: Point, b: Point, start: Call)
    requires Fresh(st, a) && Fresh(st, b) && start in st.calls && start.segment.level == level
    ensures InStage(st, level, [a, b], true, start)
  {
    hide Near;
    forall i, p, q | 0 <= i < |st.written| && p in Ends(st.written[i].points) && q in Ends([a, b])
      ensures !Near(p, q)
    {
      FarApart(p, q);
    }
  }

  lemma FarApart(p: Point, q: Point)
    requires p.y <= q.y - 0.5
    ensures !Near(p, q)
  {
  }

  /** A line takes in another one. */
  lemma MergedInStage(st: Stage, level: real, points: seq<Point>, accessed: bool, start: Call,
                      other: seq<Point>, accessed': bool, start': Call, points': seq<Point>)
    requires InStage(st, level, points, accessed, start) && InStage(st, level, other, accessed', start')
    requires st.unused <= st.used && Ends(points') <= Ends(points) + Ends(other)
    ensures InStage(st, level, points', true, start)
  {
    hide Near;
    forall i | 0 <= i < |st.written| && st.written[i].level == level
      ensures !EndsNear(st.written[i].points, points')
    {
      assert !EndsNear(st.written[i].points, points) && !EndsNear(st.written[i].points, other);
    }
  }

  class ContourItem {
    const elevation: real
    var recentlyAccessed: bool
    var points: seq<Point>
    var leftIsHigh: bool
    var tailX: real
    /** The segments that the line consists of, in its direction. */
    ghost var segs: seq<Segment>
    /** Which of them it was started with. */
    ghost var origin: nat

    constructor (elevation: real)
      ensures this.elevation == elevation && IsNew()
    {
      this.elevation, recentlyAccessed, leftIsHigh, tailX := elevation, false, false, 0.0;
      points, segs, origin := [], [], 0;
    }

    ghost predicate IsNew()
      reads this
    {
      points == [] && segs == []
    }

    ghost predicate Valid()
      reads this
    {
      Traces(elevation, points, segs) && tailX == points[|points| - 1].x && origin < |segs|
    }

    /** The segment the line was started with, and which side of it is high. */
    ghost function Start(): Call
      reads this
    {
      Call(if origin < |segs| then segs[origin] else Segment(elevation, Point(0.0, 0.0), Point(0.0, 0.0)), leftIsHigh)
    }

    ghost predicate Staged(st: Stage)
      reads this
    {
      InStage(st, elevation, points, recentlyAccessed, Start())
    }

    /** Apart from the flag nothing has changed. */
    twostate predicate SameLine()
      reads this
    {
      points == old(points) && segs == old(segs) && tailX == old(tailX) && leftIsHigh == old(leftIsHigh) &&
        origin == old(origin)
    }

    /** The line has been accessed since it had these ends, and may have got some of the others. */
    ghost predicate GrownFrom(ends: set<Point>, start: Call, more: set<Point>)
      reads this
    {
      recentlyAccessed && Start() == start && Ends(points) <= ends + more
    }

    twostate predicate KeptOrGrown(more: set<Point>)
      reads this
    {
      unchanged(this) || GrownFrom(old(Ends(points)), old(Start()), more)
    }

    function Tail(): Point
      requires points != []
      reads this
    {
      points[|points| - 1]
    }

    /** Appends a segment, in either direction, if one of its ends is near the tail. */
    method AddSegment(start: Point, end: Point, leftHigh: bool) returns (added: bool)
      requires IsNew() || Valid()
      modifies this
      ensures added <==> old(points) == [] || Near(old(Tail()), start) || Near(old(Tail()), end)
      ensures added ==> Valid() && recentlyAccessed
      ensures added ==> Joins(segs, old(segs), [Segment(elevation, start, end)])
      ensures added ==> points == if old(points) == [] then [start, end]
                                  else old(points) + [if Near(old(Tail()), start) then end else start]
      ensures added && old(points) == [] ==> leftIsHigh == leftHigh
      ensures old(points) != [] ==> leftIsHigh == old(leftIsHigh)
      ensures added && old(points) == [] ==> Start() == Call(Segment(elevation, start, end), leftHigh)
      ensures added && old(points) != [] ==> Start() == old(Start())
      ensures !added ==> unchanged(this)
    {
      hide Near, Follows, Joins;
      ghost var s := Segment(elevation, start, end);
      if |points| == 0 {
        points := [start, end];
        segs, origin := [s], 0;
        recentlyAccessed := true;
        tailX := points[1].x;
        leftIsHigh := leftHigh;
        TraceOne(s);
        ConcatJoins([], [s]);
        assert [] + [s] == [s];
        return true;
      }
      if Near(points[|points| - 1], start) {
        Extended(elevation, points, segs, s);
        points := points + [end];
        segs := segs + [s];
        recentlyAccessed := true;
        tailX := end.x;
        return true;
      } else if Near(points[|points| - 1], end) {
        Extended(elevation, points, segs, s.Reversed());
        ReversedJoins(segs, s);
        points := points + [start];
        segs := segs + [s.Reversed()];
        recentlyAccessed := true;
        tailX := start.x;
        return true;
      }
      return false;
    }

    /** Whether an end of this line is near an end of another one. */
    predicate Joinable(other: ContourItem)
      reads this, other
    {
      && points != [] && other.points != []
      && other.elevation == elevation
      && (Near(Tail(), other.points[0]) || Near(points[0], other.Tail())
          || Near(Tail(), other.Tail()) || Near(points[0], other.points[0]))
    }

    lemma JoinableIsNear(other: ContourItem)
      requires Valid() && other.Valid()
      ensures Joinable(other) <==> other.elevation == elevation && EndsNear(points, other.points)
    {
      hide Near;
      TraceEnds(elevation, points, segs);
      TraceEnds(other.elevation, other.points, other.segs);
      var a, b, c, d := points[0], Tail(), other.points[0], other.Tail();
      assert Ends(points) == {a, b} && Ends(other.points) == {c, d};
      assert Near(a, c) <==> Near(c, a) by {
        NearSymmetric(a, c);
      }
    }

    /** Appends a line whose start is near the end of this one. */
    method Append(other: ContourItem)
      requires Valid() && other.Valid() && other != this && other.elevation == elevation && points != [] &&
               other.points != []
      requires Near(Tail(), other.points[0])
      modifies this
      ensures Traces(elevation, points, segs) && Joins(segs, old(segs), other.segs)
      ensures |points| == |old(points)| + |other.points| - 1
      ensures leftIsHigh == old(leftIsHigh) && origin < |segs| && Start() == old(Start())
      ensures Ends(points) <= old(Ends(points)) + Ends(other.points)
    {
      hide Near, Traces, Joins;
      TraceConcat(elevation, points, segs, other.points, other.segs);
      ConcatJoins(segs, other.segs);
      points, segs := points + other.points[1..], segs + other.segs;
    }

    /** Puts a line in front whose end is near the start of this one. */
    method Prepend(other: ContourItem)
      requires Valid() && other.Valid() && other != this && other.elevation == elevation && points != [] &&
               other.points != []
      requires Near(points[0], other.Tail())
      modifies this
      ensures Traces(elevation, points, segs) && Joins(segs, old(segs), other.segs)
      ensures |points| == |old(points)| + |other.points| - 1
      ensures leftIsHigh == old(leftIsHigh) && origin < |segs| && Start() == old(Start())
      ensures Ends(points) <= old(Ends(points)) + Ends(other.points)
    {
      hide Near, Traces, Joins;
      TracePrepend(elevation, other.points, other.segs, points, segs);
      ConcatJoins(other.segs, segs);
      points, segs := other.points[..|other.points| - 1] + points, other.segs + segs;
      origin := origin + |other.segs|;
    }

    /** Appends a line, turned around, whose end is near the end of this one. */
    method AppendReversed(other: ContourItem)
      requires Valid() && other.Valid() && other != this && other.elevation == elevation && points != [] &&
               other.points != []
      requires Near(Tail(), other.Tail())
      modifies this
      ensures Traces(elevation, points, segs) && Joins(segs, old(segs), other.segs)
      ensures |points| == |old(points)| + |other.points| - 1
      ensures leftIsHigh == old(leftIsHigh) && origin < |segs| && Start() == old(Start())
      ensures Ends(points) <= old(Ends(points)) + Ends(other.points)
    {
      hide Near, Traces, Joins;
      var m := |other.points|;
      TraceEnds(elevation, other.points, other.segs);
      TraceReverse(elevation, other.points, other.segs);
      TraceConcat(elevation, points, segs, Reverse(other.points), ReverseSegments(other.segs));
      ConcatJoins(segs, other.segs);
      var reversed := ReverseOf(other.points, m - 2, m - 1);
      assert reversed == Reverse(other.points)[1..];
      points, segs := points + reversed, segs + ReverseSegments(other.segs);
    }

    /** Puts a line, turned around, in front whose start is near the start of this one. */
    method PrependReversed(other: ContourItem)
      requires Valid() && other.Valid() && other != this && other.elevation == elevation && points != [] &&
               other.points != []
      requires Near(points[0], other.points[0])
      modifies this
      ensures Traces(elevation, points, segs) && Joins(segs, old(segs), other.segs)
      ensures |points| == |old(points)| + |other.points| - 1
      ensures leftIsHigh == old(leftIsHigh) && origin < |segs| && Start() == old(Start())
      ensures Ends(points) <= old(Ends(points)) + Ends(other.points)
    {
      hide Near, Traces, Joins;
      var m := |other.points|;
      TraceEnds(elevation, other.points, other.segs);
      TraceReverse(elevation, other.points, other.segs);
      TracePrepend(elevation, Reverse(other.points), ReverseSegments(other.segs), points, segs);
      ConcatJoins(segs, other.segs);
      var reversed := ReverseOf(other.points, m - 1, m - 1);
      assert reversed == Reverse(other.points)[..m - 1];
      points, segs := reversed + points, ReverseSegments(other.segs) + segs;
      origin := origin + |other.segs|;
    }

    /** Takes in another line if an end of it is near an end of this one; the end of this one is kept. */
    method Merge(other: ContourItem) returns (merged: bool)
      requires Valid() && other.Valid() && other != this
      modifies this
      ensures merged <==> old(Joinable(other))
      ensures Valid() && (merged ==> recentlyAccessed && Joins(segs, old(segs), other.segs))
      ensures merged ==> |points| == |old(points)| + |other.points| - 1
      ensures leftIsHigh == old(leftIsHigh) && Start() == old(Start()) && (merged ==> other.elevation == elevation)
      ensures Ends(points) <= old(Ends(points)) + Ends(other.points)
      ensures !merged ==> unchanged(this)
    {
      hide Near, Traces, Joins;
      if other.elevation != elevation {
        return false;
      }
      TraceEnds(elevation, points, segs);
      TraceEnds(elevation, other.points, other.segs);
      var n, m := |points|, |other.points|;
      if Near(points[n - 1], other.points[0]) {
        Append(other);
      } else if Near(points[0], other.points[m - 1]) {
        Prepend(other);
      } else if Near(points[n - 1], other.points[m - 1]) {
        AppendReversed(other);
      } else if Near(points[0], other.points[0]) {
        PrependReversed(other);
      } else {
        return false;
      }
      TraceEnds(elevation, points, segs);
      recentlyAccessed := true;
      tailX := points[|points| - 1].x;
      return true;
    }

    /** Turns the line around if its left side is the high side. */
    method PrepareEjection()
      requires Valid()
      modifies this
      ensures Traces(elevation, points, segs) && Joins(segs, old(segs), [])
      ensures points == if leftIsHigh then Reverse(old(points)) else old(points)
      ensures leftIsHigh == old(leftIsHigh)
      ensures Ends(points) == old(Ends(points)) && HighOnRight(points, old(Start()))
    {
      hide Traces, Joins, Ends, HighOnRight;
      ghost var was, lineSegs := points, segs;
      if leftIsHigh {
        points := ReverseInPlace(points);
        segs := ReverseSegments(segs);
      }
      MadeReady(elevation, was, lineSegs, origin, leftIsHigh, points, segs);
    }
  }

  /** What a line is turned into before it is written. */
  lemma MadeReady(level: real, was: seq<Point>, lineSegs: seq<Segment>, origin: nat, leftHigh: bool,
                  points: seq<Point>, segs: seq<Segment>)
    requires Traces(level, was, lineSegs) && origin < |lineSegs|
    requires points == if leftHigh then Reverse(was) else was
    requires segs == if leftHigh then ReverseSegments(lineSegs) else lineSegs
    ensures Traces(level, points, segs) && Joins(segs, lineSegs, [])
    ensures Ends(points) == Ends(was) && HighOnRight(points, Call(lineSegs[origin], leftHigh))
  {
    StartIsOnRight(level, was, lineSegs, origin, leftHigh);
    if leftHigh {
      TurnedAround(level, was, lineSegs);
    } else {
      JoinsItself(lineSegs);
    }
    hide *;
  }

  lemma TurnedAround(level: real, points: seq<Point>, segs: seq<Segment>)
    requires Traces(level, points, segs)
    ensures Traces(level, Reverse(points), ReverseSegments(segs)) && Ends(Reverse(points)) == Ends(points)
    ensures Joins(ReverseSegments(segs), segs, [])
  {
    ReverseEnds(points);
    TraceReverse(level, points, segs);
    JoinsReversed(segs);
    hide *;
  }

  lemma JoinsItself(segs: seq<Segment>)
    ensures Joins(segs, segs, [])
  {
    ConcatJoins(segs, []);
    hide Joins;
    assert segs + [] == segs;
  }

  lemma JoinsReversed(segs: seq<Segment>)
    ensures Joins(ReverseSegments(segs), segs, [])
  {
    forall s
      ensures Count(ReverseSegments(segs), s) == Count(segs, s) + Count([], s)
    {
      CountReverse(segs, s);
    }
  }

  /** Turned around if its left side is high, the line has its high side on the right where it was started. */
  lemma StartIsOnRight(level: real, points: seq<Point>, segs: seq<Segment>, origin: nat, leftHigh: bool)
    requires Traces(level, points, segs) && origin < |segs|
    ensures HighOnRight(if leftHigh then Reverse(points) else points, Call(segs[origin], leftHigh))
  {
    assert Follows(level, points[origin], points[origin + 1], segs[origin]);
    var c := Call(segs[origin], leftHigh);
    if leftHigh {
      var k := |points| - 2 - origin;
      assert RunsAlong(Reverse(points)[k], Reverse(points)[k + 1], c);
    } else {
      assert RunsAlong(points[origin], points[origin + 1], c);
    }
  }

  /** Swaps the points of the first half with those of the second half. */
  method ReverseInPlace(points: seq<Point>) returns (r: seq<Point>)
    ensures r == Reverse(points)
  {
    r := points;
    var n := |r|;
    for i := 0 to n / 2
      invariant |r| == n
      invariant forall k :: 0 <= k < i ==> r[k] == points[n - 1 - k]
      invariant forall k :: n - i <= k < n ==> r[k] == points[n - 1 - k]
      invariant forall k :: i <= k < n - i ==> r[k] == points[k]
    {
      var temp := r[i];
      r := r[i := r[n - i - 1]];
      r := r[n - i - 1 := temp];
    }
  }

  /** count points backwards from the given one. */
  method ReverseOf(points: seq<Point>, from: int, count: nat) returns (r: seq<Point>)
    requires count - 1 <= from < |points|
    ensures |r| == count && forall i :: 0 <= i < count ==> r[i] == points[from - i]
  {
    r := [];
    for i := 0 to count
      invariant |r| == i && forall k :: 0 <= k < i ==> r[k] == points[from - k]
    {
      r := r + [points[from - i]];
    }
  }

  lemma Extended(level: real, points: seq<Point>, segs: seq<Segment>, s: Segment)
    requires Traces(level, points, segs) && s.level == level && Near(points[|points| - 1], s.from)
    ensures Traces(level, points + [s.to], segs + [s])
    ensures Joins(segs + [s], segs, [s])
  {
    TraceOne(s);
    TraceConcat(level, points, segs, [s.from, s.to], [s]);
    assert [s.from, s.to][1..] == [s.to];
    ConcatJoins(segs, [s]);
  }

  lemma ReversedJoins(segs: seq<Segment>, s: Segment)
    ensures Joins(segs + [s.Reversed()], segs, [s])
  {
    assert ReverseSegments([s]) == [s.Reversed()];
    ConcatJoins(segs, [s]);
  }
}

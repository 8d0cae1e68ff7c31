/**
 * Proximity rasters: the distance of every pixel to a near target pixel, found in two passes over the lines with a
 * sweep in each direction over every line. Distances are kept squared, so that they are exact integers.
 */
module Proximities {
  import opened Connectivity
  import opened Numbers
  import opened RasterBands
  import opened Wrappers

  // ---------------------------------------------------------------------
  // Distances.
  // ---------------------------------------------------------------------

  function Square(x: int): int {
    x * x
  }

  function SquareReal(x: real): real {
    x * x
  }

  function DistSq(p: Pixel, q: Pixel): int {
    Square(q.x - p.x) + Square(q.y - p.y)
  }

  function Manhattan(p: Pixel, q: Pixel): nat {
    Abs(q.x - p.x) + Abs(q.y - p.y)
  }

  /** A step to a neighbour adds at most one to the distance. */
  lemma StepTriangle(p: Pixel, p': Pixel, c: Pixel, m: nat)
    requires Manhattan(p, p') == 1 && DistSq(p, c) <= Square(m)
    ensures DistSq(p', c) <= Square(m + 1)
  {
    var a, b := c.x - p.x, c.y - p.y;
    SquareLess(Abs(a), m, Square(b));
    SquareLess(Abs(b), m, Square(a));
    SquareNext(m);
    SquareNext(a);
    SquareNext(b);
    SquareNext(a - 1);
    SquareNext(b - 1);
  }

  lemma SquareNext(x: int)
    ensures Square(x + 1) == Square(x) + 2 * x + 1
    ensures Square(Abs(x)) == Square(x) >= 0
  {
  }

  lemma SquareLess(x: nat, m: nat, rest: int)
    requires rest >= 0 && Square(x) + rest <= Square(m)
    ensures x <= m
  {
    if x > m {
      SquareMonotone(m + 1, x);
      SquareNext(m);
    }
  }

  lemma {:induction false} SquareMonotone(m: nat, x: nat)
    requires m <= x
    ensures Square(m) <= Square(x)
    decreases x
  {
    if m == x {
    } else {
      SquareMonotone(m, x - 1);
      SquareNext(x - 1);
    }
  }

  lemma EuclidBelowManhattan(p: Pixel, q: Pixel)
    ensures 0 <= DistSq(p, q) <= Square(Manhattan(p, q))
    ensures DistSq(p, q) == 0 <==> p == q
  {
    var a, b := Abs(q.x - p.x), Abs(q.y - p.y);
    SquareNext(q.x - p.x);
    SquareNext(q.y - p.y);
    SquareOfSum(a, b);
    SquareZero(q.x - p.x);
    SquareZero(q.y - p.y);
  }

  lemma SquareOfSum(a: nat, b: nat)
    ensures Square(a) + Square(b) <= Square(a + b)
  {
    assert Square(a + b) == Square(a) + 2 * (a * b) + Square(b);
  }

  lemma SquareZero(x: int)
    ensures Square(x) >= 0 && (Square(x) == 0 <==> x == 0)
  {
  }

  // ---------------------------------------------------------------------
  // Targets and what is near.
  // ---------------------------------------------------------------------

  /** Without target values, everything but zero is a target. */
  predicate Target(values: seq<int>, v: int) {
    if values == [] then v != 0 else v in values
  }

  ghost predicate TargetAt(img: seq<seq<int>>, values: seq<int>, p: Pixel) {
    InLines(img, p) && Target(values, At(img, p))
  }

  /** The square of the distance from which on no target counts. */
  function Limit(maxDist: real, xSize: nat): real {
    SquareReal(if maxDist > xSize as real then maxDist else xSize as real) * 2.0
  }

  lemma RealSquare(m: nat)
    ensures Square(m) as real == SquareReal(m as real)
  {
  }

  lemma RealSquareLess(x: real, y: real)
    requires 0.0 <= x <= y
    ensures SquareReal(x) <= SquareReal(y)
  {
  }

  // ---------------------------------------------------------------------
  // The buffers of a line.
  // ---------------------------------------------------------------------

  /** What an entry is to name, and the square of the distance that anything else must be nearer than. */
  datatype Choice = Choice(at: Pixel, near: real)

  /** The near target of every pixel of a line, -1 for none, and the squared proximities, -1 for none. */
  datatype LineState = LineState(nearX: seq<int>, nearY: seq<int>, prox: seq<int>) {
    predicate Valid(n: nat) {
      |nearX| == |nearY| == |prox| == n
    }

    /** The pixel that entry i names. */
    function Near(i: nat): Pixel
      requires i < |nearX| == |nearY|
    {
      Pixel(nearX[i], nearY[i])
    }

    /** What entry k names is nearer to p than the square root of limit. */
    predicate Candidate(k: nat, p: Pixel, limit: real)
      requires k < |nearX| == |nearY|
    {
      nearX[k] != -1 && DistSq(p, Near(k)) as real < limit
    }

    /** What entry i has, unless that is too far away. */
    function Kept(i: nat, p: Pixel, limit: real): Choice
      requires i < |nearX| == |nearY|
    {
      if Candidate(i, p, limit) then Choice(Near(i), DistSq(p, Near(i)) as real)
      else Choice(if nearX[i] == -1 then Near(i) else Pixel(-1, -1), limit)
    }

    /** What entry k has, if it exists and is nearer. */
    function Considered(k: int, p: Pixel, c: Choice): Choice
      requires |nearX| == |nearY|
    {
      if 0 <= k < |nearX| && Candidate(k, p, c.near) then Choice(Near(k), DistSq(p, Near(k)) as real) else c
    }

    /** What entry i gets from itself, from the entry before it and from the one after it. */
    function Chosen(i: nat, p: Pixel, limit: real, stride: int): Choice
      requires i < |nearX| == |nearY|
    {
      Considered(i + stride, p, Considered(i - stride, p, Kept(i, p, limit)))
    }

    function With(i: nat, at: Pixel, d: int): (s: LineState)
      requires i < |nearX| == |nearY| == |prox|
      ensures s.Valid(|prox|)
    {
      LineState(nearX[i := at.x], nearY[i := at.y], prox[i := d])
    }
  }

  function EmptyLine(n: nat): (s: LineState)
    ensures s.Valid(n)
  {
    LineState(seq(n, _ => -1), seq(n, _ => -1), seq(n, _ => -1))
  }

  // ---------------------------------------------------------------------
  // Sweeps and passes.
  // ---------------------------------------------------------------------

  /** The entry that a sweep comes to after k others. */
  function Position(n: nat, forward: bool, k: nat): nat
    requires k < n
  {
    if forward then k else n - 1 - k
  }

  function Stride(forward: bool): int {
    if forward then 1 else -1
  }

  /** A pass that has reached line y has seen target t: on the line or on one that it came over before. */
  ghost predicate Seen(down: bool, y: int, t: Pixel) {
    if down then t.y <= y else y <= t.y
  }

  /** The raster, the targets in it, and the maximal distance. */
  datatype Search = Search(img: seq<seq<int>>, n: nat, values: seq<int>, maxDist: real) {
    ghost predicate Valid() {
      forall y :: 0 <= y < |img| ==> |img[y]| == n
    }

    ghost predicate Has(t: Pixel) {
      TargetAt(img, values, t)
    }

    /** A squared distance that counts. */
    predicate InRange(d: int) {
      d as real <= SquareReal(maxDist) && d as real < Limit(maxDist, n)
    }

    /** What the distance c.near does to a proximity. */
    function ProxAfter(prox: int, p: Pixel, c: Choice): int {
      if c.at.x != -1 && c.near <= SquareReal(maxDist) && (prox < 0 || c.near < prox as real) then DistSq(p, c.at)
      else prox
    }

    /** Entry i after a sweep has come to it. */
    function Stepped(s: LineState, y: nat, i: nat, forward: bool): (s': LineState)
      requires Valid() && y < |img| && i < n && s.Valid(n)
      ensures s'.Valid(n)
    {
      var p := Pixel(i, y);
      if Target(values, img[y][i]) then s.With(i, p, 0)
      else
        var c := s.Chosen(i, p, Limit(maxDist, n), Stride(forward));
        s.With(i, c.at, ProxAfter(s.prox[i], p, c))
    }

    /** A line after k steps of a sweep. */
    function Swept(s: LineState, y: nat, forward: bool, k: nat): (s': LineState)
      requires Valid() && y < |img| && k <= n && s.Valid(n)
      ensures s'.Valid(n)
    {
      if k == 0 then s
      else Stepped(Swept(s, y, forward, k - 1), y, Position(n, forward, k - 1), forward)
    }

    /** A line after both sweeps. */
    function LineSwept(s: LineState, y: nat, down: bool): (s': LineState)
      requires Valid() && y < |img| && s.Valid(n)
      ensures s'.Valid(n)
    {
      Swept(Swept(s, y, down, n), y, !down, n)
    }

    /** Line y before a pass comes to it: the first pass begins without proximities, the second one with its result. */
    function Before(y: nat, down: bool): (s: LineState)
      requires Valid() && y < |img|
      ensures s.Valid(n)
      decreases !down, if down then y else |img| - 1 - y, 0
    {
      var near := if y == (if down then 0 else |img| - 1) then EmptyLine(n)
          else After(if down then y - 1 else y + 1, down);
      LineState(near.nearX, near.nearY, if down then EmptyLine(n).prox else After(y, true).prox)
    }

    /** Line y after a pass. */
    function After(y: nat, down: bool): (s: LineState)
      requires Valid() && y < |img|
      ensures s.Valid(n)
      decreases !down, if down then y else |img| - 1 - y, 1
    {
      LineSwept(Before(y, down), y, down)
    }

    /** The squared distance found for p, -1 for none. */
    function Found(p: Pixel): int
      requires Valid() && InLines(img, p)
    {
      After(p.y, false).prox[p.x]
    }
  }

  method IsTarget(values: seq<int>, v: int) returns (isTarget: bool)
    ensures isTarget == Target(values, v)
  {
    isTarget := false;
    if |values| == 0 {
      isTarget := v != 0;
    } else {
      for i := 0 to |values|
        invariant isTarget == (v in values[..i])
      {
        if v == values[i] {
          isTarget := true;
        }
      }
      assert values[..|values|] == values;
    }
  }

  /** The buffers of a line. */
  class LineBuffers {
    const xSize: nat
    const nearX: array<int>
    const nearY: array<int>
    const prox: array<int>

    constructor (xSize: nat)
      ensures Valid() && fresh(Repr()) && this.xSize == xSize
    {
      this.xSize := xSize;
      nearX, nearY, prox := new int[xSize], new int[xSize], new int[xSize];
    }

    ghost function Repr(): set<object> {
      {nearX, nearY, prox}
    }

    ghost predicate Valid() {
      nearX.Length == nearY.Length == prox.Length == xSize && nearX != nearY && nearX != prox && nearY != prox
    }

    ghost function State(): (s: LineState)
      requires Valid()
      reads nearX, nearY, prox
      ensures s.Valid(xSize)
    {
      LineState(nearX[..], nearY[..], prox[..])
    }

    method ClearNear()
      requires Valid()
      modifies nearX, nearY
      ensures State() == EmptyLine(xSize).(prox := old(State()).prox)
    {
      for i := 0 to xSize
        invariant forall j :: 0 <= j < i ==> nearX[j] == nearY[j] == -1
      {
        nearX[i], nearY[i] := -1, -1;
      }
    }

    method ClearProx()
      requires Valid()
      modifies prox
      ensures State() == old(State()).(prox := EmptyLine(xSize).prox)
    {
      for i := 0 to xSize
        invariant forall j :: 0 <= j < i ==> prox[j] == -1
      {
        prox[i] := -1;
      }
    }

    method SetProx(line: seq<int>)
      requires Valid() && |line| == xSize
      modifies prox
      ensures State() == old(State()).(prox := line)
    {
      for i := 0 to xSize
        invariant forall j :: 0 <= j < i ==> prox[j] == line[j]
      {
        prox[i] := line[i];
      }
    }

    /** Takes over what entry k names if it is nearer than the square root of near. */
    method Consider(i: nat, k: nat, p: Pixel, near: real) returns (near': real)
      requires Valid() && i < xSize && k < xSize
      modifies nearX, nearY
      ensures var c := old(State()).Considered(k, p, Choice(old(State()).Near(i), near));
              near' == c.near && State() == old(State()).With(i, c.at, old(State()).prox[i])
    {
      near' := near;
      if nearX[k] != -1 {
        var distSq := DistSq(p, Pixel(nearX[k], nearY[k])) as real;
        if distSq < near {
          near' := distSq;
          nearX[i], nearY[i] := nearX[k], nearY[k];
        }
      }
    }

    /** Whether entry i itself is near enough; if not, it is emptied. */
    method Keep(i: nat, p: Pixel, near: real) returns (near': real)
      requires Valid() && i < xSize
      modifies nearX, nearY
      ensures var c := old(State()).Kept(i, p, near);
              near' == c.near && State() == old(State()).With(i, c.at, old(State()).prox[i])
    {
      near' := near;
      if nearX[i] != -1 {
        var distSq := DistSq(p, Pixel(nearX[i], nearY[i])) as real;
        if distSq < near {
          near' := distSq;
        } else {
          nearX[i], nearY[i] := -1, -1;
        }
      }
    }

    /** Finds the nearest of what the entry itself, the one before and the one after it name. */
    method FindNear(maxDist: real, p: Pixel, i: nat, start: int, stop: int, stride: int) returns (near: real)
      requires Valid() && i < xSize
      requires (start == 0 && stop == xSize && stride == 1) || (start == xSize - 1 && stop == -1 && stride == -1)
      modifies nearX, nearY
      ensures var c := old(State()).Chosen(i, p, Limit(maxDist, xSize), stride);
              near == c.near && State() == old(State()).With(i, c.at, old(State()).prox[i])
    {
      hide Limit, LineState.Considered, LineState.Kept, LineState.With;
      ghost var s := State();
      near := Limit(maxDist, xSize);
      near := Keep(i, p, near);
      ghost var c := s.Kept(i, p, Limit(maxDist, xSize));
      if i == start {
        NothingThere(s, i - stride, p, c);
      } else {
        ChoiceElsewhere(s, i, c, i - stride, p);
        near := Consider(i, i - stride, p, near);
        c := s.Considered(i - stride, p, c);
      }
      if i + stride == stop {
        NothingThere(s, i + stride, p, c);
      } else {
        ChoiceElsewhere(s, i, c, i + stride, p);
        near := Consider(i, i + stride, p, near);
      }
    }

    /** One pixel of a sweep. */
    method ProcessPixel(ghost search: Search, values: seq<int>, v: int, maxDist: real, y: nat, i: nat,
                        start: int, stop: int, stride: int)
      requires Valid() && search == Search(search.img, xSize, values, maxDist) && search.Valid()
      requires y < |search.img| && i < xSize && v == search.img[y][i]
      requires (start == 0 && stop == xSize && stride == 1) || (start == xSize - 1 && stop == -1 && stride == -1)
      modifies Repr()
      ensures State() == search.Stepped(old(State()), y, i, stride == 1)
    {
      hide Limit, DistSq, SquareReal, Target, LineState.Chosen;
      var isTarget := IsTarget(values, v);
      if isTarget {
        prox[i], nearX[i], nearY[i] := 0, i, y;
        return;
      }
      var near := FindNear(maxDist, Pixel(i, y), i, start, stop, stride);
      if nearX[i] != -1 && near <= SquareReal(maxDist) && (prox[i] < 0 || near < prox[i] as real) {
        prox[i] := DistSq(Pixel(i, y), Pixel(nearX[i], nearY[i]));
      }
    }
  }

  lemma NothingThere(s: LineState, k: int, p: Pixel, c: Choice)
    requires |s.nearX| == |s.nearY| && !(0 <= k < |s.nearX|)
    ensures s.Considered(k, p, c) == c
  {
  }

  /** What entry k offers does not depend on what entry i has been given. */
  lemma ChoiceElsewhere(s: LineState, i: nat, c: Choice, k: nat, p: Pixel)
    requires |s.nearX| == |s.nearY| == |s.prox| && i < |s.nearX| && k < |s.nearX| && i != k
    ensures var s' := s.With(i, c.at, s.prox[i]);
            var c' := s.Considered(k, p, c);
            s'.Considered(k, p, Choice(s'.Near(i), c.near)) == c' &&
                s'.With(i, c'.at, s'.prox[i]) == s.With(i, c'.at, s.prox[i])
  {
    hide DistSq;
  }

  /** One sweep over a line. */
  method ProcessProximityLine(ghost search: Search, values: seq<int>, maxDist: real, line: seq<int>,
                              buffers: LineBuffers, leftToRight: bool, lineIndex: nat)
    requires buffers.Valid() && search == Search(search.img, buffers.xSize, values, maxDist) && search.Valid()
    requires lineIndex < |search.img| && line == search.img[lineIndex]
    modifies buffers.Repr()
    ensures buffers.State() == search.Swept(old(buffers.State()), lineIndex, leftToRight, search.n)
  {
    hide Search.Stepped;
    var start, stop, stride := 0, buffers.xSize as int, 1;
    if !leftToRight {
      start, stop, stride := buffers.xSize - 1, -1, -1;
    }
    ghost var k := 0;
    var pixelIndex := start;
    while pixelIndex != stop
      invariant 0 <= k <= search.n && pixelIndex == start + k * stride
      invariant buffers.State() == search.Swept(old(buffers.State()), lineIndex, leftToRight, k)
      decreases search.n - k
    {
      buffers.ProcessPixel(search, values, line[pixelIndex], maxDist, lineIndex, pixelIndex, start, stop, stride);
      pixelIndex := pixelIndex + stride;
      k := k + 1;
    }
  }

  /** Two sweeps over line lineIndex, in the order of a pass. */
  method ProcessLine(ghost search: Search, values: seq<int>, maxDist: real, line: seq<int>,
                     buffers: LineBuffers, lineIndex: nat, down: bool)
    requires buffers.Valid() && search == Search(search.img, buffers.xSize, values, maxDist) && search.Valid()
    requires lineIndex < |search.img| && line == search.img[lineIndex]
    modifies buffers.Repr()
    ensures buffers.State() == search.LineSwept(old(buffers.State()), lineIndex, down)
  {
    hide Search.Swept;
    ProcessProximityLine(search, values, maxDist, line, buffers, down, lineIndex);
    ProcessProximityLine(search, values, maxDist, line, buffers, !down, lineIndex);
  }

  /** The first pass leaves its proximities in the work band. */
  method TopDown(ghost search: Search, src: RasterBand, work: RasterBand, values: seq<int>, maxDist: real)
    requires src.Valid() && work.Valid() && src != work && src.xSize == work.xSize && |src.lines| == |work.lines|
    requires search == Search(src.lines, src.xSize, values, maxDist) && search.Valid()
    modifies work
    ensures work.Valid() && |work.lines| == |src.lines|
    ensures forall y :: 0 <= y < |src.lines| ==> work.lines[y] == search.After(y, true).prox
  {
    hide Search.LineSwept;
    var buffers := new LineBuffers(src.xSize);
    buffers.ClearNear();
    for lineIndex := 0 to |src.lines|
      invariant buffers.Valid() && work.Valid() && |work.lines| == |src.lines|
      invariant lineIndex < |src.lines| ==>
          buffers.State().(prox := EmptyLine(search.n).prox) == search.Before(lineIndex, true)
      invariant forall y :: 0 <= y < lineIndex ==> work.lines[y] == search.After(y, true).prox
    {
      var line := src.ReadLine(lineIndex);
      buffers.ClearProx();
      ProcessLine(search, values, maxDist, line, buffers, lineIndex, true);
      work.WriteLine(lineIndex, buffers.prox[..]);
    }
  }

  // ---------------------------------------------------------------------
  // The result.
  // ---------------------------------------------------------------------

  /** An output pixel: the nodata value, the fixed value, or the square root of sq in the units of the distances. */
  datatype Output = NoData | FixedValue | Distance(sq: int)

  function Finish(prox: int, fixedBuf: bool): Output {
    if prox < 0 then NoData else if prox > 0 && fixedBuf then FixedValue else Distance(prox)
  }

  method FinishLine(prox: array<int>, fixedBuf: bool) returns (line: seq<Output>)
    ensures |line| == prox.Length && forall i :: 0 <= i < prox.Length ==> line[i] == Finish(prox[i], fixedBuf)
  {
    line := [];
    for i := 0 to prox.Length
      invariant |line| == i && forall j :: 0 <= j < i ==> line[j] == Finish(prox[j], fixedBuf)
    {
      var d := prox[i];
      if d < 0 {
        line := line + [NoData];
      } else if d > 0 && fixedBuf {
        line := line + [FixedValue];
      } else {
        line := line + [Distance(d)];
      }
    }
  }

  /** Line y of the output says what was found for its pixels. */
  predicate OutputLine(search: Search, fixedBuf: bool, line: seq<Output>, y: nat)
    requires search.Valid() && y < |search.img|
  {
    |line| == search.n && forall i :: 0 <= i < search.n ==> line[i] == Finish(search.Found(Pixel(i, y)), fixedBuf)
  }

  method BottomUp(ghost search: Search, src: RasterBand, work: RasterBand, values: seq<int>, maxDist: real,
                  fixedBuf: bool)
    returns (result: seq<seq<Output>>)
    requires src.Valid() && work.Valid() && src.xSize == work.xSize && |src.lines| == |work.lines|
    requires search == Search(src.lines, src.xSize, values, maxDist) && search.Valid()
    requires forall y :: 0 <= y < |src.lines| ==> work.lines[y] == search.After(y, true).prox
    ensures |result| == |src.lines|
    ensures forall y :: 0 <= y < |result| ==> OutputLine(search, fixedBuf, result[y], y)
  {
    hide Search.LineSwept, Finish;
    var buffers := new LineBuffers(src.xSize);
    buffers.ClearNear();
    result := [];
    var lineIndex: int := |src.lines| - 1;
    while lineIndex >= 0
      invariant -1 <= lineIndex < |src.lines|
      invariant buffers.Valid() && |result| == |src.lines| - 1 - lineIndex
      invariant 0 <= lineIndex ==>
          buffers.State().(prox := work.lines[lineIndex]) == search.Before(lineIndex, false)
      invariant forall k :: 0 <= k < |result| ==> OutputLine(search, fixedBuf, result[k], lineIndex + 1 + k)
    {
      var proximity := work.ReadLine(lineIndex);
      buffers.SetProx(proximity);
      var line := src.ReadLine(lineIndex);
      ProcessLine(search, values, maxDist, line, buffers, lineIndex, false);
      var out := FinishLine(buffers.prox, fixedBuf);
      result := [out] + result;
      lineIndex := lineIndex - 1;
    }
  }

  /** The maximal distance that is used if none is given: no two pixels of the raster are as far apart. */
  function MaxDist(given: Option<real>, xSize: nat, ySize: nat): real {
    if given.Some? then given.value else (xSize + ySize) as real
  }

  /** The proximity raster of a band; the work band holds the squared distances of the first pass. */
  method GDALComputeProximity(src: RasterBand, work: RasterBand, values: seq<int>, maxDist: Option<real>,
                              fixedBuf: bool)
    returns (result: seq<seq<Output>>)
    requires src.Valid() && work.Valid() && src != work && src.xSize == work.xSize && |src.lines| == |work.lines|
    modifies work
    ensures |result| == |src.lines|
    ensures var search := Search(src.lines, src.xSize, values, MaxDist(maxDist, src.xSize, |src.lines|));
            forall y :: 0 <= y < |result| ==> OutputLine(search, fixedBuf, result[y], y)
  {
    hide OutputLine, MaxDist;
    var givenDist := MaxDist(maxDist, src.xSize, |src.lines|);
    ghost var search := Search(src.lines, src.xSize, values, givenDist);
    TopDown(search, src, work, values, givenDist);
    result := BottomUp(search, src, work, values, givenDist, fixedBuf);
  }
}

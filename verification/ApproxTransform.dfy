/**
 * The approximating transformer: a line of points is transformed in place, and wherever the middle point is near
 * enough to the interpolation between the ends, the whole run of points is interpolated.
 */
module ApproxTransforms {
  import opened Numbers

  datatype Point = Point(x: real, y: real, z: real)

  datatype Output = Output(p: Point, success: bool)

  /** A transformer that treats every point on its own; what a call returns may depend on all of its points. */
  datatype Transformer = Transformer(f: Point -> Output, returns_: seq<Point> -> bool)

  /** The distance that decides between interpolation and subdivision. */
  function Error(p: Point, q: Point): real {
    AbsReal(p.x - q.x) + AbsReal(p.y - q.y)
  }

  // ---------------------------------------------------------------------
  // What a transformed line consists of.
  // ---------------------------------------------------------------------

  ghost predicate Exact(base: Transformer, pts: seq<Point>, outs: seq<Output>, lo: int, hi: int)
    requires 0 <= lo <= hi <= |pts| == |outs|
  {
    forall i :: lo <= i < hi ==> outs[i] == base.f(pts[i])
  }

  /** r divides p and q as x divides x0 and x1. */
  predicate Divides(p: Point, q: Point, r: Point, x0: real, x1: real, x: real) {
    && (r.x - p.x) * (x1 - x0) == (q.x - p.x) * (x - x0)
    && (r.y - p.y) * (x1 - x0) == (q.y - p.y) * (x - x0)
    && (r.z - p.z) * (x1 - x0) == (q.z - p.z) * (x - x0)
  }

  function Middle(lo: int, hi: int): int {
    lo + (hi - lo - 1) / 2
  }

  /**
   * A run that was interpolated: all outputs are successful and on a line between those of its ends, which are exact,
   * and the one in the middle is within the error of the exact one.
   */
  ghost predicate Interpolated(base: Transformer, maxError: real, pts: seq<Point>, outs: seq<Output>, lo: int, hi: int)
    requires 0 <= lo < hi <= |pts| == |outs|
  {
    var m := Middle(lo, hi);
    && outs[lo] == base.f(pts[lo]) && outs[hi - 1] == base.f(pts[hi - 1])
    && Error(outs[m].p, base.f(pts[m]).p) <= maxError
    && forall i :: lo <= i < hi ==>
         outs[i].success && Divides(outs[lo].p, outs[hi - 1].p, outs[i].p, pts[lo].x, pts[hi - 1].x, pts[i].x)
  }

  /** A point at a distance in x from p, along the slopes. */
  function Along(p: Point, dx: real, dy: real, dz: real, dist: real): Point {
    Point(p.x + dx * dist, p.y + dy * dist, p.z + dz * dist)
  }

  /** The point between the exact ends of a range, at the x of point i. */
  function Between(base: Transformer, pts: seq<Point>, lo: int, hi: int, i: int): Point
    requires 0 <= lo <= i < hi <= |pts| && pts[lo].x != pts[hi - 1].x
  {
    var p, q, d := base.f(pts[lo]).p, base.f(pts[hi - 1]).p, pts[hi - 1].x - pts[lo].x;
    Along(p, (q.x - p.x) / d, (q.y - p.y) / d, (q.z - p.z) / d, pts[i].x - pts[lo].x)
  }

  /** No run from lo to hi may be interpolated. */
  ghost predicate MustBeExact(base: Transformer, maxError: real, pts: seq<Point>, lo: int, hi: int)
    requires 0 <= lo < hi <= |pts|
  {
    var p, q, r := pts[lo], pts[Middle(lo, hi)], pts[hi - 1];
    || p.y != r.y || p.y != q.y || p.x == r.x || p.x == q.x || maxError == 0.0 || hi - lo <= 5
    || !base.returns_([p, q, r]) || !base.f(p).success || !base.f(q).success || !base.f(r).success
  }

  /** A run is exact where interpolation is out of the question, and interpolated otherwise. */
  ghost predicate Run(base: Transformer, maxError: real, pts: seq<Point>, outs: seq<Output>, lo: int, hi: int)
    requires 0 <= lo < hi <= |pts| == |outs|
  {
    if MustBeExact(base, maxError, pts, lo, hi) then Exact(base, pts, outs, lo, hi)
    else Interpolated(base, maxError, pts, outs, lo, hi)
  }

  /** The cuts divide the points from lo to hi into runs. */
  ghost predicate Runs(base: Transformer, maxError: real, pts: seq<Point>, outs: seq<Output>,
                       lo: int, hi: int, cuts: seq<int>)
    requires 0 <= lo <= hi <= |pts| == |outs|
  {
    && |cuts| >= 2 && cuts[0] == lo && cuts[|cuts| - 1] == hi
    && (forall k :: 0 <= k < |cuts| ==> lo <= cuts[k] <= hi)
    && (forall k :: 0 <= k < |cuts| - 1 ==>
          cuts[k] < cuts[k + 1] && Run(base, maxError, pts, outs, cuts[k], cuts[k + 1]))
  }

  /**
   * The range from lo to hi has been transformed: exactly where it must be, by interpolation where that hits the middle
   * point within the error, and otherwise in two parts.
   */
  ghost predicate Approximated(base: Transformer, maxError: real, pts: seq<Point>, outs: seq<Output>, lo: int, hi: int)
    requires 0 <= lo < hi <= |pts| == |outs|
    decreases hi - lo
  {
    var m := Middle(lo, hi);
    if MustBeExact(base, maxError, pts, lo, hi) then
      Exact(base, pts, outs, lo, hi)
    else if Error(Between(base, pts, lo, hi, m), base.f(pts[m]).p) <= maxError then
      Interpolated(base, maxError, pts, outs, lo, hi)
    else
      Approximated(base, maxError, pts, outs, lo, m) && Approximated(base, maxError, pts, outs, m, hi)
  }

  /** It is divided into runs. */
  lemma {:induction false} ApproximatedRuns(base: Transformer, maxError: real, pts: seq<Point>, outs: seq<Output>,
                                            lo: int, hi: int) returns (cuts: seq<int>)
    requires 0 <= lo < hi <= |pts| == |outs| && Approximated(base, maxError, pts, outs, lo, hi)
    ensures Runs(base, maxError, pts, outs, lo, hi, cuts)
    decreases hi - lo
  {
    hide Exact, Interpolated;
    var m := Middle(lo, hi);
    if MustBeExact(base, maxError, pts, lo, hi) || Error(Between(base, pts, lo, hi, m), base.f(pts[m]).p) <= maxError {
      cuts := [lo, hi];
      assert Run(base, maxError, pts, outs, lo, hi);
    } else {
      var cuts1 := ApproximatedRuns(base, maxError, pts, outs, lo, m);
      var cuts2 := ApproximatedRuns(base, maxError, pts, outs, m, hi);
      RunsJoin(base, maxError, pts, outs, lo, m, hi, cuts1, cuts2);
      cuts := cuts1 + cuts2[1..];
    }
  }

  lemma RunsJoin(base: Transformer, maxError: real, pts: seq<Point>, outs: seq<Output>,
                 lo: int, mid: int, hi: int, cuts: seq<int>, cuts': seq<int>)
    requires 0 <= lo <= mid <= hi <= |pts| == |outs|
    requires Runs(base, maxError, pts, outs, lo, mid, cuts) && Runs(base, maxError, pts, outs, mid, hi, cuts')
    ensures Runs(base, maxError, pts, outs, lo, hi, cuts + cuts'[1..])
  {
    var all := cuts + cuts'[1..];
    forall k | 0 <= k < |all| - 1
      ensures all[k] < all[k + 1] && Run(base, maxError, pts, outs, all[k], all[k + 1])
    {
      if k >= |cuts| - 1 {
        var j := k - (|cuts| - 1);
        assert all[k] == cuts'[j] && all[k + 1] == cuts'[j + 1];
      }
    }
  }

  /** r is as far in x and y from p towards q as x is from x0 towards x1. */
  ghost predicate OnLine(p: Point, q: Point, r: Point, x0: real, x1: real, x: real) {
    && (r.x - p.x) * (x1 - x0) == (q.x - p.x) * (x - x0)
    && (r.y - p.y) * (x1 - x0) == (q.y - p.y) * (x - x0)
  }

  /** The distances of p and q in x and in y add up to more than d. */
  ghost predicate FartherThan(p: Point, q: Point, d: real) {
    (if p.x < q.x then q.x - p.x else p.x - q.x) + (if p.y < q.y then q.y - p.y else p.y - q.y) > d
  }

  /** The middle output of a range is no farther than the error from the exact one. */
  lemma MiddleIsNear(base: Transformer, maxError: real, pts: seq<Point>, outs: seq<Output>, lo: int, hi: int)
    requires 0 <= lo < hi <= |pts| == |outs| && Approximated(base, maxError, pts, outs, lo, hi) && maxError >= 0.0
    ensures var m := lo + (hi - lo - 1) / 2;
            !FartherThan(outs[m].p, base.f(pts[m]).p, maxError)
  {
    hide Along, Divides;
    var m := Middle(lo, hi);
    if !MustBeExact(base, maxError, pts, lo, hi) && Error(Between(base, pts, lo, hi, m), base.f(pts[m]).p) > maxError {
      EndsAreExact(base, maxError, pts, outs, m, hi);
    }
  }

  /** Runs of at most five points, and all others that do not lie on a line of constant y, are exact. */
  lemma ShortOrBentIsExact(base: Transformer, maxError: real, pts: seq<Point>, outs: seq<Output>, lo: int, hi: int)
    requires 0 <= lo < hi <= |pts| == |outs| && Approximated(base, maxError, pts, outs, lo, hi)
    requires hi - lo <= 5 || maxError == 0.0 || pts[lo].y != pts[hi - 1].y || pts[lo].x == pts[hi - 1].x
    ensures forall i :: lo <= i < hi ==> outs[i] == base.f(pts[i])
  {
    hide Error, Along, Divides;
    assert MustBeExact(base, maxError, pts, lo, hi);
  }

  /**
   * A range is divided if the point on the line between its exact ends, at the x of its middle, is farther from the
   * exact middle than the error: then it is exact on both sides of the cut, unless it is exact throughout.
   */
  lemma MissedIsDivided(base: Transformer, maxError: real, pts: seq<Point>, outs: seq<Output>, lo: int, hi: int,
                        mid: Point)
    requires 0 <= lo < hi <= |pts| == |outs| && Approximated(base, maxError, pts, outs, lo, hi)
    requires pts[lo].x != pts[hi - 1].x
    requires var m := lo + (hi - lo - 1) / 2;
             && OnLine(base.f(pts[lo]).p, base.f(pts[hi - 1]).p, mid, pts[lo].x, pts[hi - 1].x, pts[m].x)
             && FartherThan(mid, base.f(pts[m]).p, maxError)
    ensures var m := lo + (hi - lo - 1) / 2;
            && outs[m] == base.f(pts[m]) && (m > lo ==> outs[m - 1] == base.f(pts[m - 1]))
            && (Exact(base, pts, outs, lo, hi) ||
                (Approximated(base, maxError, pts, outs, lo, m) && Approximated(base, maxError, pts, outs, m, hi)))
  {
    var m := Middle(lo, hi);
    if !MustBeExact(base, maxError, pts, lo, hi) {
      LineIsBetween(base, pts, lo, hi, m, mid);
      hide Divides, OnLine, Along;
      assert Error(Between(base, pts, lo, hi, m), base.f(pts[m]).p) > maxError;
      EndsAreExact(base, maxError, pts, outs, lo, m);
      EndsAreExact(base, maxError, pts, outs, m, hi);
    }
  }

  lemma LineIsBetween(base: Transformer, pts: seq<Point>, lo: int, hi: int, i: int, r: Point)
    requires 0 <= lo <= i < hi <= |pts| && pts[lo].x != pts[hi - 1].x
    requires OnLine(base.f(pts[lo]).p, base.f(pts[hi - 1]).p, r, pts[lo].x, pts[hi - 1].x, pts[i].x)
    ensures Between(base, pts, lo, hi, i).x == r.x && Between(base, pts, lo, hi, i).y == r.y
  {
    var p, q, d, dist := base.f(pts[lo]).p, base.f(pts[hi - 1]).p, pts[hi - 1].x - pts[lo].x, pts[i].x - pts[lo].x;
    Proportional(p.x, q.x, r.x, d, dist);
    Proportional(p.y, q.y, r.y, d, dist);
  }

  lemma Proportional(p: real, q: real, r: real, d: real, dist: real)
    requires d != 0.0 && (r - p) * d == (q - p) * dist
    ensures p + (q - p) / d * dist == r
  {
    assert (q - p) / d * dist * d == (q - p) * dist by {
      assert (q - p) / d * d == q - p;
    }
    NoZeroProduct(p + (q - p) / d * dist - r, d);
  }

  /** It depends on nothing outside its range. */
  lemma {:induction false} ApproximatedLocal(base: Transformer, maxError: real, pts: seq<Point>, outs: seq<Output>,
                                             pts': seq<Point>, outs': seq<Output>, lo: int, hi: int)
    requires 0 <= lo < hi <= |pts| == |outs| == |pts'| == |outs'| && Approximated(base, maxError, pts, outs, lo, hi)
    requires forall i :: lo <= i < hi ==> pts'[i] == pts[i] && outs'[i] == outs[i]
    ensures Approximated(base, maxError, pts', outs', lo, hi)
    decreases hi - lo
  {
    hide Error, Along, Interpolated;
    var m := Middle(lo, hi);
    if MustBeExact(base, maxError, pts, lo, hi) {
    } else if Error(Between(base, pts, lo, hi, m), base.f(pts[m]).p) <= maxError {
      InterpolatedLocal(base, maxError, pts, outs, pts', outs', lo, hi);
    } else {
      ApproximatedLocal(base, maxError, pts, outs, pts', outs', lo, m);
      ApproximatedLocal(base, maxError, pts, outs, pts', outs', m, hi);
    }
  }

  lemma InterpolatedLocal(base: Transformer, maxError: real, pts: seq<Point>, outs: seq<Output>,
                          pts': seq<Point>, outs': seq<Output>, lo: int, hi: int)
    requires 0 <= lo < hi <= |pts| == |outs| == |pts'| == |outs'| && Interpolated(base, maxError, pts, outs, lo, hi)
    requires forall i :: lo <= i < hi ==> pts'[i] == pts[i] && outs'[i] == outs[i]
    ensures Interpolated(base, maxError, pts', outs', lo, hi)
  {
    hide Error;
    forall i | lo <= i < hi
      ensures outs'[i].success
      ensures Divides(outs'[lo].p, outs'[hi - 1].p, outs'[i].p, pts'[lo].x, pts'[hi - 1].x, pts'[i].x)
    {
      assert outs'[i] == outs[i];
    }
  }

  /** The first and the last output are those of the base transformer. */
  lemma EndsAreExact(base: Transformer, maxError: real, pts: seq<Point>, outs: seq<Output>, lo: int, hi: int)
    requires 0 <= lo < hi <= |pts| == |outs| && Approximated(base, maxError, pts, outs, lo, hi)
    ensures outs[lo] == base.f(pts[lo]) && outs[hi - 1] == base.f(pts[hi - 1])
  {
    hide Divides, Error;
    var cuts := ApproximatedRuns(base, maxError, pts, outs, lo, hi);
    var n := |cuts|;
    assert Run(base, maxError, pts, outs, cuts[0], cuts[1]);
    assert Run(base, maxError, pts, outs, cuts[n - 2], cuts[n - 1]);
  }

  // ---------------------------------------------------------------------
  // Affine transformers.
  // ---------------------------------------------------------------------

  /** One coordinate of what an affine transformer does to a point. */
  function AffineCoordinate(o: real, u: real, v: real, w: real, p: Point): real {
    o + u * p.x + v * p.y + w * p.z
  }

  /** What an affine transformer does to a point. */
  function Affine(o: Point, u: Point, v: Point, w: Point, p: Point): Point {
    Point(AffineCoordinate(o.x, u.x, v.x, w.x, p), AffineCoordinate(o.y, u.y, v.y, w.y, p),
          AffineCoordinate(o.z, u.z, v.z, w.z, p))
  }

  lemma DividesOnce(a: real, b: real, c: real, k: real, u: real, x0: real, x1: real, x: real)
    requires x0 != x1 && a == k + u * x0 && b == k + u * x1 && (c - a) * (x1 - x0) == (b - a) * (x - x0)
    ensures c == k + u * x
  {
    var d := x1 - x0;
    assert b - a == u * d;
    assert (c - a) * d == u * d * (x - x0);
    var e := c - a - u * (x - x0);
    assert e * d == 0.0 by {
      assert (c - a - u * (x - x0)) * d == (c - a) * d - u * (x - x0) * d;
      assert u * (x - x0) * d == u * d * (x - x0);
    }
    assert e == 0.0 by {
      NoZeroProduct(e, d);
    }
    assert u * (x - x0) == u * x - u * x0;
  }

  lemma NoZeroProduct(e: real, d: real)
    requires e * d == 0.0 && d != 0.0
    ensures e == 0.0
  {
    assert e * d / d == e;
  }

  /** On a line of constant y and z an affine transformer is reproduced, whatever the error allowed. */
  lemma AffineIsExact(base: Transformer, maxError: real, pts: seq<Point>, outs: seq<Output>,
                      o: Point, u: Point, v: Point, w: Point)
    requires 0 < |pts| == |outs| && Approximated(base, maxError, pts, outs, 0, |pts|)
    requires forall i :: 0 <= i < |pts| ==> pts[i].y == pts[0].y && pts[i].z == pts[0].z
    requires forall i :: 0 <= i < |pts| ==> base.f(pts[i]) == Output(Affine(o, u, v, w, pts[i]), true)
    ensures Exact(base, pts, outs, 0, |pts|)
  {
    hide Interpolated, Exact, Affine;
    var cuts := ApproximatedRuns(base, maxError, pts, outs, 0, |pts|);
    forall i | 0 <= i < |pts|
      ensures outs[i] == base.f(pts[i])
    {
      var k := RunOf(cuts, 0, |pts|, i);
      AffineRun(base, maxError, pts, outs, cuts[k], cuts[k + 1], o, u, v, w, i);
    }
    AllExact(base, pts, outs);
  }

  lemma AllExact(base: Transformer, pts: seq<Point>, outs: seq<Output>)
    requires |pts| == |outs| && forall i :: 0 <= i < |pts| ==> outs[i] == base.f(pts[i])
    ensures Exact(base, pts, outs, 0, |pts|)
  {
  }

  /** The run that a point belongs to. */
  lemma RunOf(cuts: seq<int>, lo: int, hi: int, i: int) returns (k: nat)
    requires |cuts| >= 2 && cuts[0] == lo && cuts[|cuts| - 1] == hi && lo <= i < hi
    ensures k < |cuts| - 1 && cuts[k] <= i < cuts[k + 1]
  {
    k := 0;
    while cuts[k + 1] <= i
      invariant 0 <= k < |cuts| - 1 && cuts[k] <= i
      decreases |cuts| - k
    {
      k := k + 1;
    }
  }

  lemma AffineRun(base: Transformer, maxError: real, pts: seq<Point>, outs: seq<Output>, lo: int, hi: int,
                  o: Point, u: Point, v: Point, w: Point, i: int)
    requires 0 <= lo <= i < hi <= |pts| == |outs| && Run(base, maxError, pts, outs, lo, hi)
    requires forall i :: 0 <= i < |pts| ==> pts[i].y == pts[0].y && pts[i].z == pts[0].z
    requires forall i :: 0 <= i < |pts| ==> base.f(pts[i]) == Output(Affine(o, u, v, w, pts[i]), true)
    ensures outs[i] == base.f(pts[i])
  {
    hide Error, Affine;
    if !MustBeExact(base, maxError, pts, lo, hi) {
      DividesAffine(o, u, v, w, pts[lo], pts[hi - 1], pts[i], outs[i].p);
    }
  }

  lemma DividesAffine(o: Point, u: Point, v: Point, w: Point, a: Point, b: Point, c: Point, r: Point)
    requires a.y == b.y == c.y && a.z == b.z == c.z && a.x != b.x
    requires Divides(Affine(o, u, v, w, a), Affine(o, u, v, w, b), r, a.x, b.x, c.x)
    ensures r == Affine(o, u, v, w, c)
  {
    hide AffineCoordinate;
    DividesCoordinate(o.x, u.x, v.x, w.x, a, b, c, r.x);
    DividesCoordinate(o.y, u.y, v.y, w.y, a, b, c, r.y);
    DividesCoordinate(o.z, u.z, v.z, w.z, a, b, c, r.z);
  }

  lemma DividesCoordinate(o: real, u: real, v: real, w: real, a: Point, b: Point, c: Point, r: real)
    requires a.y == b.y == c.y && a.z == b.z == c.z && a.x != b.x
    requires var p, q := AffineCoordinate(o, u, v, w, a), AffineCoordinate(o, u, v, w, b);
             (r - p) * (b.x - a.x) == (q - p) * (c.x - a.x)
    ensures r == AffineCoordinate(o, u, v, w, c)
  {
    DividesOnce(AffineCoordinate(o, u, v, w, a), AffineCoordinate(o, u, v, w, b), r, o + v * a.y + w * a.z, u,
                a.x, b.x, c.x);
  }

  // ---------------------------------------------------------------------
  // The transformer.
  // ---------------------------------------------------------------------

  ghost predicate Arrays(x: array<real>, y: array<real>, z: array<real>, ok: array<bool>) {
    x.Length == y.Length == z.Length == ok.Length && x != y && x != z && y != z
  }

  ghost function Points(x: array<real>, y: array<real>, z: array<real>): (r: seq<Point>)
    requires x.Length == y.Length == z.Length
    reads x, y, z
    ensures |r| == x.Length && forall i :: 0 <= i < |r| ==> r[i] == Point(x[i], y[i], z[i])
  {
    seq(x.Length, i requires 0 <= i < x.Length && x.Length == y.Length == z.Length reads x, y, z =>
      Point(x[i], y[i], z[i]))
  }

  ghost function Outputs(x: array<real>, y: array<real>, z: array<real>, ok: array<bool>): (r: seq<Output>)
    requires Arrays(x, y, z, ok)
    reads x, y, z, ok
    ensures |r| == x.Length && forall i :: 0 <= i < |r| ==> r[i] == Output(Point(x[i], y[i], z[i]), ok[i])
  {
    seq(x.Length, i requires 0 <= i < x.Length && Arrays(x, y, z, ok) reads x, y, z, ok =>
      Output(Point(x[i], y[i], z[i]), ok[i]))
  }

  /** A call of the base transformer for a range. */
  method BaseTransform(base: Transformer, x: array<real>, y: array<real>, z: array<real>, successes: array<bool>,
                       lo: nat, numPoints: nat)
    returns (done: bool)
    requires Arrays(x, y, z, successes) && lo + numPoints <= x.Length
    modifies x, y, z, successes
    ensures done == base.returns_(old(Points(x, y, z))[lo..lo + numPoints])
    ensures forall i :: lo <= i < lo + numPoints ==>
              Outputs(x, y, z, successes)[i] == base.f(old(Points(x, y, z))[i])
    ensures forall i :: 0 <= i < x.Length && !(lo <= i < lo + numPoints) ==>
              Outputs(x, y, z, successes)[i] == old(Outputs(x, y, z, successes))[i]
  {
    ghost var pts := Points(x, y, z);
    var points: seq<Point> := [];
    for i := lo to lo + numPoints
      invariant points == pts[lo..i]
      invariant forall k :: lo <= k < i ==> Outputs(x, y, z, successes)[k] == base.f(pts[k])
      invariant forall k :: 0 <= k < x.Length && !(lo <= k < i) ==>
          Outputs(x, y, z, successes)[k] == old(Outputs(x, y, z, successes))[k]
    {
      assert Point(x[i], y[i], z[i]) == old(Outputs(x, y, z, successes))[i].p == pts[i] by {
        assert Outputs(x, y, z, successes)[i] == old(Outputs(x, y, z, successes))[i];
      }
      var p := Point(x[i], y[i], z[i]);
      points := points + [p];
      var out := base.f(p);
      x[i], y[i], z[i], successes[i] := out.p.x, out.p.y, out.p.z, out.success;
    }
    return base.returns_(points);
  }

  lemma AlongDivides(p: Point, q: Point, x0: real, x1: real, x: real)
    requires x0 != x1
    ensures var d := x1 - x0;
            Divides(p, q, Along(p, (q.x - p.x) / d, (q.y - p.y) / d, (q.z - p.z) / d, x - x0), x0, x1, x)
  {
    DividesReal(p.x, q.x, x1 - x0, x - x0);
    DividesReal(p.y, q.y, x1 - x0, x - x0);
    DividesReal(p.z, q.z, x1 - x0, x - x0);
  }

  lemma DividesReal(a: real, b: real, d: real, e: real)
    requires d != 0.0
    ensures (a + (b - a) / d * e - a) * d == (b - a) * e
  {
    var s := (b - a) / d;
    assert s * d == b - a;
    assert s * e * d == s * d * e;
  }

  lemma AlongEnds(p: Point, q: Point, x0: real, x1: real)
    requires x0 != x1
    ensures var d := x1 - x0;
            && Along(p, (q.x - p.x) / d, (q.y - p.y) / d, (q.z - p.z) / d, x0 - x0) == p
            && Along(p, (q.x - p.x) / d, (q.y - p.y) / d, (q.z - p.z) / d, x1 - x0) == q
  {
    var d := x1 - x0;
    assert (q.x - p.x) / d * d == q.x - p.x;
    assert (q.y - p.y) / d * d == q.y - p.y;
    assert (q.z - p.z) / d * d == q.z - p.z;
  }

  /** Interpolates a range, from the last point to the first, whose x the distances are measured from. */
  method Interpolate(x: array<real>, y: array<real>, z: array<real>, successes: array<bool>, lo: nat, numPoints: nat,
                     p: Point, dx: real, dy: real, dz: real)
    requires Arrays(x, y, z, successes) && lo + numPoints <= x.Length
    modifies x, y, z, successes
    ensures forall i :: lo <= i < lo + numPoints ==>
              Outputs(x, y, z, successes)[i] ==
              Output(Along(p, dx, dy, dz, old(Points(x, y, z))[i].x - old(Points(x, y, z))[lo].x), true)
    ensures forall i :: 0 <= i < x.Length && !(lo <= i < lo + numPoints) ==>
              Outputs(x, y, z, successes)[i] == old(Outputs(x, y, z, successes))[i]
  {
    hide Along;
    var i := lo + numPoints;
    while i > lo
      invariant lo <= i <= lo + numPoints
      invariant forall k :: i <= k < lo + numPoints ==>
          Outputs(x, y, z, successes)[k] == Output(Along(p, dx, dy, dz, old(x[k]) - old(x[lo])), true)
      invariant forall k :: 0 <= k < x.Length && !(i <= k < lo + numPoints) ==>
          Outputs(x, y, z, successes)[k] == old(Outputs(x, y, z, successes))[k]
    {
      i := i - 1;
      assert Outputs(x, y, z, successes)[i].p.x == x[i] && old(Outputs(x, y, z, successes))[i].p.x == old(x[i]);
      assert Outputs(x, y, z, successes)[lo].p.x == x[lo] && old(Outputs(x, y, z, successes))[lo].p.x == old(x[lo]);
      var distance := x[i] - x[lo];
      var q := Along(p, dx, dy, dz, distance);
      x[i], y[i], z[i], successes[i] := q.x, q.y, q.z, true;
    }
  }

  method ApproxTransform(base: Transformer, tolerance: real, x: array<real>, y: array<real>, z: array<real>,
                         successes: array<bool>, lo: nat, numPoints: nat)
    returns (done: bool)
    requires Arrays(x, y, z, successes) && numPoints >= 1 && lo + numPoints <= x.Length
    modifies x, y, z, successes
    ensures forall i :: 0 <= i < x.Length && !(lo <= i < lo + numPoints) ==>
              Outputs(x, y, z, successes)[i] == old(Outputs(x, y, z, successes))[i]
    ensures done ==>
              Approximated(base, tolerance, old(Points(x, y, z)), Outputs(x, y, z, successes), lo, lo + numPoints)
    ensures (forall pts :: base.returns_(pts)) ==> done
    decreases numPoints
  {
    hide Error, Along, Approximated;
    ghost var pts := Points(x, y, z);
    var offset := (numPoints - 1) / 2;
    var first, middle, last := lo, lo + offset, lo + numPoints - 1;
    if y[first] != y[last] || y[first] != y[middle] || x[first] == x[last] || x[first] == x[middle]
       || tolerance == 0.0 || numPoints <= 5 {
      done := TransformAll(base, tolerance, x, y, z, successes, lo, numPoints);
      return;
    }
    var p0, p1, p2 := Point(x[first], y[first], z[first]), Point(x[middle], y[middle], z[middle]),
                      Point(x[last], y[last], z[last]);
    var o0, o1, o2 := base.f(p0), base.f(p1), base.f(p2);
    if !base.returns_([p0, p1, p2]) || !o0.success || !o1.success || !o2.success {
      done := TransformAll(base, tolerance, x, y, z, successes, lo, numPoints);
      return;
    }
    var d := x[last] - x[first];
    var dx, dy, dz := (o2.p.x - o0.p.x) / d, (o2.p.y - o0.p.y) / d, (o2.p.z - o0.p.z) / d;
    var deviation := Error(Along(o0.p, dx, dy, dz, x[middle] - x[first]), o1.p);
    if deviation > tolerance {
      done := Subdivide(base, tolerance, x, y, z, successes, lo, numPoints);
      return;
    }
    Interpolate(x, y, z, successes, lo, numPoints, o0.p, dx, dy, dz);
    InterpolatedRange(base, tolerance, pts, Outputs(x, y, z, successes), lo, lo + numPoints);
    return true;
  }

  /** Transforms all points of a range exactly. */
  method TransformAll(base: Transformer, ghost tolerance: real, x: array<real>, y: array<real>, z: array<real>,
                      successes: array<bool>, lo: nat, numPoints: nat)
    returns (done: bool)
    requires Arrays(x, y, z, successes) && numPoints >= 1 && lo + numPoints <= x.Length
    requires MustBeExact(base, tolerance, Points(x, y, z), lo, lo + numPoints)
    modifies x, y, z, successes
    ensures forall i :: 0 <= i < x.Length && !(lo <= i < lo + numPoints) ==>
              Outputs(x, y, z, successes)[i] == old(Outputs(x, y, z, successes))[i]
    ensures Approximated(base, tolerance, old(Points(x, y, z)), Outputs(x, y, z, successes), lo, lo + numPoints)
    ensures (forall pts :: base.returns_(pts)) ==> done
  {
    hide Approximated, MustBeExact;
    ghost var pts := Points(x, y, z);
    done := BaseTransform(base, x, y, z, successes, lo, numPoints);
    ExactRange(base, tolerance, pts, Outputs(x, y, z, successes), lo, lo + numPoints);
  }

  /** Transforms the two halves one after the other. */
  method Subdivide(base: Transformer, tolerance: real, x: array<real>, y: array<real>, z: array<real>,
                   successes: array<bool>, lo: nat, numPoints: nat)
    returns (done: bool)
    requires Arrays(x, y, z, successes) && numPoints > 5 && lo + numPoints <= x.Length
    requires MustDivide(base, tolerance, Points(x, y, z), lo, lo + numPoints)
    modifies x, y, z, successes
    ensures forall i :: 0 <= i < x.Length && !(lo <= i < lo + numPoints) ==>
              Outputs(x, y, z, successes)[i] == old(Outputs(x, y, z, successes))[i]
    ensures done ==>
              Approximated(base, tolerance, old(Points(x, y, z)), Outputs(x, y, z, successes), lo, lo + numPoints)
    ensures (forall pts :: base.returns_(pts)) ==> done
    decreases numPoints, 0
  {
    hide Approximated, MustDivide;
    var offset := (numPoints - 1) / 2;
    ghost var pts, start := Points(x, y, z), Outputs(x, y, z, successes);
    done := ApproxTransform(base, tolerance, x, y, z, successes, lo, offset);
    if !done {
      return;
    }
    ghost var pts', half := Points(x, y, z), Outputs(x, y, z, successes);
    done := ApproxTransform(base, tolerance, x, y, z, successes, lo + offset, numPoints - offset);
    if !done {
      return;
    }
    ghost var outs := Outputs(x, y, z, successes);
    ApproximatedLocal(base, tolerance, pts, half, pts, outs, lo, lo + offset);
    assert forall i :: lo + offset <= i < lo + numPoints ==> pts'[i] == half[i].p == start[i].p == pts[i];
    ApproximatedLocal(base, tolerance, pts', outs, pts, outs, lo + offset, lo + numPoints);
    DividedRange(base, tolerance, pts, outs, lo, lo + numPoints);
    done := true;
  }

  /** Interpolation would miss the middle point by more than the error. */
  ghost predicate MustDivide(base: Transformer, maxError: real, pts: seq<Point>, lo: int, hi: int)
    requires 0 <= lo < hi <= |pts|
  {
    !MustBeExact(base, maxError, pts, lo, hi)
    && var m := Middle(lo, hi); Error(Between(base, pts, lo, hi, m), base.f(pts[m]).p) > maxError
  }

  lemma {:induction false} DividedRange(base: Transformer, maxError: real, pts: seq<Point>, outs: seq<Output>,
                                        lo: int, hi: int)
    requires 0 <= lo < hi <= |pts| == |outs| && MustDivide(base, maxError, pts, lo, hi)
    requires Approximated(base, maxError, pts, outs, lo, Middle(lo, hi))
    requires Approximated(base, maxError, pts, outs, Middle(lo, hi), hi)
    ensures Approximated(base, maxError, pts, outs, lo, hi)
  {
  }

  lemma {:induction false} ExactRange(base: Transformer, maxError: real, pts: seq<Point>, outs: seq<Output>,
                                      lo: int, hi: int)
    requires 0 <= lo < hi <= |pts| == |outs| && forall i :: lo <= i < hi ==> outs[i] == base.f(pts[i])
    requires MustBeExact(base, maxError, pts, lo, hi)
    ensures Approximated(base, maxError, pts, outs, lo, hi)
  {
  }

  lemma {:induction false} InterpolatedRange(base: Transformer, maxError: real, pts: seq<Point>, outs: seq<Output>,
                                             lo: int, hi: int)
    requires 0 <= lo < hi <= |pts| == |outs| && !MustBeExact(base, maxError, pts, lo, hi)
    requires var m := Middle(lo, hi); Error(Between(base, pts, lo, hi, m), base.f(pts[m]).p) <= maxError
    requires forall i :: lo <= i < hi ==> outs[i] == Output(Between(base, pts, lo, hi, i), true)
    ensures Approximated(base, maxError, pts, outs, lo, hi)
  {
    hide Error, Along, Divides;
    AlongEnds(base.f(pts[lo]).p, base.f(pts[hi - 1]).p, pts[lo].x, pts[hi - 1].x);
    forall i | lo <= i < hi
      ensures Divides(base.f(pts[lo]).p, base.f(pts[hi - 1]).p, outs[i].p, pts[lo].x, pts[hi - 1].x, pts[i].x)
    {
      AlongDivides(base.f(pts[lo]).p, base.f(pts[hi - 1]).p, pts[lo].x, pts[hi - 1].x, pts[i].x);
    }
    assert Interpolated(base, maxError, pts, outs, lo, hi);
  }
}

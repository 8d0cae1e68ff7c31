/**
 * When the proximity algorithm finds the true distance to the nearest target: for which pixels, whatever else is in the
 * raster, and for rasters of which sizes and with how many targets in every case.
 */
module ProximityExact {
  import opened Connectivity
  import opened Numbers
  import opened Proximities
  import opened ProximitySpread
  import opened Wrappers

  /** By how much u is farther from q than t. */
  function Lead(t: Pixel, u: Pixel, q: Pixel): int {
    DistSq(q, u) - DistSq(q, t)
  }

  /** t is a nearest target of p. */
  ghost predicate Nearest(search: Search, p: Pixel, t: Pixel) {
    search.Has(t) && forall u :: search.Has(u) ==> Lead(t, u, p) >= 0
  }

  /** The squared distance found for p is that to a nearest target. */
  ghost predicate ExactAt(search: Search, p: Pixel)
    requires search.Valid() && InLines(search.img, p)
  {
    forall t :: Nearest(search, p, t) && search.InRange(DistSq(p, t)) ==> search.Found(p) == DistSq(p, t)
  }

  // ---------------------------------------------------------------------
  // Leads along lines and columns.
  // ---------------------------------------------------------------------

  /** How a lead changes from pixel to pixel. */
  lemma LeadIsLinear(t: Pixel, u: Pixel, q: Pixel, q': Pixel)
    ensures Lead(t, u, q') == Lead(t, u, q) + 2 * (t.x - u.x) * (q'.x - q.x) + 2 * (t.y - u.y) * (q'.y - q.y)
  {
    SquaresMoved(t.x, u.x, q.x, q'.x);
    SquaresMoved(t.y, u.y, q.y, q'.y);
    hide Square;
  }

  lemma SquaresMoved(a: int, b: int, x: int, x': int)
    ensures Square(b - x') - Square(a - x') == Square(b - x) - Square(a - x) + 2 * (a - b) * (x' - x)
  {
    assert Square(b - x') - Square(a - x') == b * b - a * a + 2 * (a - b) * x';
    assert Square(b - x) - Square(a - x) == b * b - a * a + 2 * (a - b) * x;
  }

  /** q is on the straight line from q0 to q1 along a line or a column. */
  predicate Between(q0: Pixel, q: Pixel, q1: Pixel) {
    || (q0.y == q.y == q1.y && (q0.x <= q.x <= q1.x || q1.x <= q.x <= q0.x))
    || (q0.x == q.x == q1.x && (q0.y <= q.y <= q1.y || q1.y <= q.y <= q0.y))
  }

  /** Between two pixels a lead is between those at the two. */
  lemma LeadBetween(t: Pixel, u: Pixel, q0: Pixel, q: Pixel, q1: Pixel)
    requires Between(q0, q, q1) && Lead(t, u, q0) >= 0 && Lead(t, u, q1) >= 0
    ensures Lead(t, u, q) >= 0
    ensures Lead(t, u, q0) > 0 && q != q1 ==> Lead(t, u, q) > 0
    ensures Lead(t, u, q1) > 0 && q != q0 ==> Lead(t, u, q) > 0
    ensures Lead(t, u, q0) == Lead(t, u, q1) == 0 ==> Lead(t, u, q) == 0
  {
    LeadIsLinear(t, u, q0, q);
    LeadIsLinear(t, u, q0, q1);
    LeadIsLinear(t, u, q1, q);
    hide Lead;
    if q0.y == q.y == q1.y {
      BetweenProducts(t.x - u.x, q0.x, q.x, q1.x, Lead(t, u, q0), Lead(t, u, q), Lead(t, u, q1));
    } else {
      BetweenProducts(t.y - u.y, q0.y, q.y, q1.y, Lead(t, u, q0), Lead(t, u, q), Lead(t, u, q1));
    }
  }

  lemma BetweenProducts(d: int, z0: int, z: int, z1: int, f0: int, f: int, f1: int)
    requires (z0 <= z <= z1 || z1 <= z <= z0) && f0 >= 0 && f1 >= 0
    requires f == f0 + 2 * d * (z - z0) && f1 == f0 + 2 * d * (z1 - z0) && f == f1 + 2 * d * (z - z1)
    ensures f >= 0 && (f0 > 0 && z != z1 ==> f > 0) && (f1 > 0 && z != z0 ==> f > 0)
    ensures f0 == f1 == 0 ==> f == 0
  {
    var e := 2 * d;
    if z0 != z1 {
      SignOfProduct(e, z - z0);
      SignOfProduct(e, z - z1);
      SignOfProduct(e, z1 - z0);
    }
  }

  lemma SignOfProduct(a: int, b: int)
    ensures a > 0 && b > 0 ==> a * b > 0
    ensures a > 0 && b < 0 ==> a * b < 0
    ensures a < 0 && b > 0 ==> a * b < 0
    ensures a < 0 && b < 0 ==> a * b > 0
    ensures a == 0 || b == 0 <==> a * b == 0
  {
  }

  // ---------------------------------------------------------------------
  // A target that leads along the way is found.
  // ---------------------------------------------------------------------

  /** No target that a pass has seen when it comes to line y is nearer to q than t. */
  ghost predicate Leads(search: Search, down: bool, y: int, t: Pixel, q: Pixel) {
    forall u :: Offered(search, down, y, u) ==> Lead(t, u, q) >= 0
  }

  lemma InRangeBelow(search: Search, d: int, d': int)
    requires d <= d' && search.InRange(d')
    ensures search.InRange(d)
  {
  }

  /** On the way from t to p the distance to t is smaller. */
  lemma CloserOnWay(t: Pixel, q: Pixel, p: Pixel)
    requires t.x <= q.x <= p.x || p.x <= q.x <= t.x
    requires t.y <= q.y <= p.y || p.y <= q.y <= t.y
    ensures DistSq(q, t) <= DistSq(p, t)
  {
    SquareNext(t.x - q.x);
    SquareNext(t.x - p.x);
    SquareNext(t.y - q.y);
    SquareNext(t.y - p.y);
    SquareMonotone(Abs(t.x - q.x), Abs(t.x - p.x));
    SquareMonotone(Abs(t.y - q.y), Abs(t.y - p.y));
  }

  /** If t is a nearest target of p and something good at p is as near as t, the distance found is that to t. */
  lemma FoundIsNearest(search: Search, p: Pixel, t: Pixel, c: Pixel)
    requires search.Valid() && InLines(search.img, p) && Nearest(search, p, t)
    requires DistSq(p, c) <= DistSq(p, t) && 0 <= search.Found(p) <= DistSq(p, c)
    ensures search.Found(p) == DistSq(p, t)
  {
    hide DistSq, Search.Found, SquareReal;
    FoundIsDistance(search, p);
    var u :| search.Has(u) && DistSq(p, u) == search.Found(p);
    assert Lead(t, u, p) >= 0;
  }

  /** On the way nothing but t is good, and at p whatever is as near. */
  function ColumnFirst(t: Pixel, p: Pixel): Goal {
    (q: Pixel, c: Pixel) => if q == p then DistSq(q, c) <= DistSq(q, t) else c == t
  }

  lemma ColumnFirstStays(search: Search, down: bool, t: Pixel, q: Pixel, p: Pixel)
    requires search.InRange(DistSq(p, t)) && Leads(search, down, q.y, t, q)
    requires (t.x <= q.x <= p.x || p.x <= q.x <= t.x) && (t.y <= q.y <= p.y || p.y <= q.y <= t.y)
    ensures Stays(search, down, q, ColumnFirst(t, p))
  {
    CloserOnWay(t, q, p);
    hide DistSq, Search.InRange;
    forall c, c' | Offered(search, down, q.y, c) && Offered(search, down, q.y, c') && ColumnFirst(t, p)(q, c)
      ensures search.InRange(DistSq(q, c)) && (DistSq(q, c') < DistSq(q, c) ==> ColumnFirst(t, p)(q, c'))
    {
      InRangeBelow(search, DistSq(q, c), DistSq(p, t));
      assert Lead(t, c', q) >= 0;
    }
  }

  lemma ColumnFirstPasses(search: Search, down: bool, t: Pixel, q': Pixel, q: Pixel, p: Pixel)
    requires search.InRange(DistSq(p, t)) && q' != p
    requires (t.x <= q.x <= p.x || p.x <= q.x <= t.x) && q.y == p.y
    requires q == p || forall u :: Offered(search, down, q.y, u) && u != t ==> Lead(t, u, q) > 0
    ensures Passes(search, down, q', q, ColumnFirst(t, p))
  {
    CloserOnWay(t, q, p);
    hide DistSq, Search.InRange;
    InRangeBelow(search, DistSq(q, t), DistSq(p, t));
    forall c, c' | Offered(search, down, q.y, c) && Offered(search, down, q.y, c') && ColumnFirst(t, p)(q', c)
      ensures search.InRange(DistSq(q, c)) && (DistSq(q, c') <= DistSq(q, c) ==> ColumnFirst(t, p)(q, c'))
    {
      assert q != p && c' != t ==> Lead(t, c', q) > 0;
    }
  }

  /** A target seen is farther than t between the column of t and p, if it is not nearer at both. */
  lemma StrictOnLine(search: Search, down: bool, t: Pixel, u: Pixel, q: Pixel, p: Pixel)
    requires Seen(down, p.y, t) && Seen(down, p.y, u) && u != t
    requires Lead(t, u, Pixel(t.x, p.y)) >= 0 && Lead(t, u, p) >= 0
    requires Between(Pixel(t.x, p.y), q, p) && q != p && q.x != t.x
    ensures Lead(t, u, q) > 0
  {
    var corner := Pixel(t.x, p.y);
    LeadBetween(t, u, corner, q, p);
    if Lead(t, u, corner) == Lead(t, u, p) == 0 {
      LeadIsLinear(t, u, corner, p);
      SignOfProduct(2 * (t.x - u.x), p.x - t.x);
      assert u.x == t.x;
      MirrorIsUnseen(t.y - p.y, u.y - p.y);
      assert false;
    }
  }

  lemma MirrorIsUnseen(a: int, b: int)
    requires Square(a) == Square(b) && ((a <= 0 && b <= 0) || (a >= 0 && b >= 0))
    ensures a == b
  {
    assert (a - b) * (a + b) == 0;
    SignOfProduct(a - b, a + b);
  }

  /** In the column of t nothing seen is nearer than t, if nothing is at its end. */
  lemma LeadsInColumn(search: Search, down: bool, t: Pixel, y: int, r: int)
    requires Leads(search, down, y, t, Pixel(t.x, y)) && if down then t.y <= r <= y else y <= r <= t.y
    ensures Leads(search, down, r, t, Pixel(t.x, r))
  {
    hide DistSq;
    forall u | Offered(search, down, r, u)
      ensures Lead(t, u, Pixel(t.x, r)) >= 0
    {
      DistSqPositive(t, t);
      DistSqPositive(t, u);
      LeadBetween(t, u, t, Pixel(t.x, r), Pixel(t.x, y));
    }
  }

  lemma ColumnFirstRuns(search: Search, down: bool, t: Pixel, p: Pixel)
    requires Seen(down, p.y, t) && search.InRange(DistSq(p, t))
    requires Leads(search, down, p.y, t, p) && Leads(search, down, p.y, t, Pixel(t.x, p.y))
    ensures Run(search, down, p.y, t.x, p.x, ColumnFirst(t, p))
  {
    hide DistSq, Passes, Search.InRange;
    forall r | t.x < r <= p.x || p.x <= r < t.x
      ensures Passes(search, down, Toward(t.x, Pixel(r, p.y)), Pixel(r, p.y), ColumnFirst(t, p))
    {
      var q := Pixel(r, p.y);
      forall u | q != p && Offered(search, down, q.y, u) && u != t
        ensures Lead(t, u, q) > 0
      {
        StrictOnLine(search, down, t, u, q, p);
      }
      ColumnFirstPasses(search, down, t, Toward(t.x, q), q, p);
    }
  }

  lemma ColumnFirstFalls(search: Search, down: bool, t: Pixel, y: int, p: Pixel)
    requires Seen(down, p.y, t) && search.InRange(DistSq(p, t))
    requires Leads(search, down, p.y, t, p) && Leads(search, down, p.y, t, Pixel(t.x, p.y))
    ensures Fall(search, down, t.x, t.y, p.y, ColumnFirst(t, p))
  {
    hide DistSq, Stays, Search.InRange;
    forall r | if down then t.y < r <= p.y else p.y <= r < t.y
      ensures Drops(search, down, Pixel(t.x, Previous(down, r)), Pixel(t.x, r), ColumnFirst(t, p))
      ensures Stays(search, down, Pixel(t.x, r), ColumnFirst(t, p))
    {
      LeadsInColumn(search, down, t, p.y, r);
      ColumnFirstStays(search, down, t, Pixel(t.x, r), p);
    }
  }

  /**
   * The distance to a nearest target of p is found if on the line of p and in the column of the target no target seen
   * is nearer.
   */
  lemma ExactByColumn(search: Search, down: bool, t: Pixel, p: Pixel)
    requires search.Valid() && InLines(search.img, p) && Nearest(search, p, t) && search.InRange(DistSq(p, t))
    requires Seen(down, p.y, t) && Leads(search, down, p.y, t, Pixel(t.x, p.y))
    ensures search.Found(p) == DistSq(p, t)
  {
    hide DistSq, Stays, Run, Fall, Search.InRange, Search.Found;
    var good := ColumnFirst(t, p);
    LeadsInColumn(search, down, t, p.y, t.y);
    ColumnFirstStays(search, down, t, t, p);
    ColumnFirstStays(search, down, t, p, p);
    ColumnFirstRuns(search, down, t, p);
    ColumnFirstFalls(search, down, t, p.y, p);
    assert Run(search, down, t.y, t.x, t.x, good) by {
      EmptyRun(search, down, t.y, t.x, good);
    }
    var c := WayIsFound(search, down, t, t.x, p, good);
    FoundIsNearest(search, p, t, c);
  }

  lemma EmptyRun(search: Search, down: bool, y: int, x: int, good: Goal)
    ensures Run(search, down, y, x, x, good)
  {
  }

  /** On the line of t nothing but t is good, and in the column of p whatever is as near. */
  function LineFirst(t: Pixel, p: Pixel): Goal {
    (q: Pixel, c: Pixel) => if q.x == p.x then DistSq(q, c) <= DistSq(q, t) else c == t
  }

  /**
   * In the column of p, on the line of t, every other target seen from p is farther, or as far all along the column.
   */
  ghost predicate LeadsOnLine(search: Search, down: bool, t: Pixel, p: Pixel) {
    var corner := Pixel(p.x, t.y);
    forall u :: Offered(search, down, p.y, u) && u != t ==>
      Lead(t, u, corner) > 0 || Lead(t, u, corner) == Lead(t, u, p) == 0
  }

  lemma LineFirstStays(search: Search, down: bool, t: Pixel, q: Pixel, p: Pixel)
    requires search.InRange(DistSq(p, t)) && (q == t || q.x == p.x) && (t.y <= q.y <= p.y || p.y <= q.y <= t.y)
    ensures Stays(search, down, q, LineFirst(t, p))
  {
    CloserOnWay(t, q, p);
    DistSqPositive(t, t);
    hide DistSq, Search.InRange;
    forall c, c' | Offered(search, down, q.y, c) && Offered(search, down, q.y, c') && LineFirst(t, p)(q, c)
      ensures search.InRange(DistSq(q, c)) && (DistSq(q, c') < DistSq(q, c) ==> LineFirst(t, p)(q, c'))
    {
      InRangeBelow(search, DistSq(q, c), DistSq(p, t));
      DistSqPositive(q, c');
    }
  }

  lemma LineFirstRuns(search: Search, down: bool, t: Pixel, p: Pixel)
    requires Seen(down, p.y, t) && search.InRange(DistSq(p, t)) && LeadsOnLine(search, down, t, p)
    ensures Run(search, down, t.y, t.x, p.x, LineFirst(t, p))
  {
    hide DistSq, Search.InRange;
    forall r, c, c' | (t.x < r <= p.x || p.x <= r < t.x)
                      && Offered(search, down, t.y, c) && Offered(search, down, t.y, c')
                      && LineFirst(t, p)(Toward(t.x, Pixel(r, t.y)), c)
      ensures var q := Pixel(r, t.y);
              search.InRange(DistSq(q, c)) && (DistSq(q, c') <= DistSq(q, c) ==> LineFirst(t, p)(q, c'))
    {
      var q, corner := Pixel(r, t.y), Pixel(p.x, t.y);
      CloserOnWay(t, q, p);
      InRangeBelow(search, DistSq(q, c), DistSq(p, t));
      if c' != t {
        DistSqPositive(t, t);
        DistSqPositive(t, c');
        LeadBetween(t, c', t, q, corner);
      }
    }
  }

  lemma LineFirstFalls(search: Search, down: bool, t: Pixel, p: Pixel)
    requires Seen(down, p.y, t) && search.InRange(DistSq(p, t))
    requires Leads(search, down, p.y, t, p) && LeadsOnLine(search, down, t, p)
    ensures Fall(search, down, p.x, t.y, p.y, LineFirst(t, p))
  {
    hide DistSq, Stays, Search.InRange;
    forall r | if down then t.y < r <= p.y else p.y <= r < t.y
      ensures Drops(search, down, Pixel(p.x, Previous(down, r)), Pixel(p.x, r), LineFirst(t, p))
      ensures Stays(search, down, Pixel(p.x, r), LineFirst(t, p))
    {
      var q', q, corner := Pixel(p.x, Previous(down, r)), Pixel(p.x, r), Pixel(p.x, t.y);
      forall c | Offered(search, down, q'.y, c) && LineFirst(t, p)(q', c)
        ensures LineFirst(t, p)(q, c)
      {
        if c != t {
          assert Offered(search, down, p.y, c);
          LeadBetween(t, c, corner, q', p);
          LeadBetween(t, c, corner, q, p);
        }
      }
      LineFirstStays(search, down, t, q, p);
    }
  }

  /** Likewise if in the column of p and on the line of the target every other target seen is farther. */
  lemma ExactByLine(search: Search, down: bool, t: Pixel, p: Pixel)
    requires search.Valid() && InLines(search.img, p) && Nearest(search, p, t) && search.InRange(DistSq(p, t))
    requires Seen(down, p.y, t) && LeadsOnLine(search, down, t, p)
    ensures search.Found(p) == DistSq(p, t)
  {
    hide DistSq, Stays, Run, Fall, Search.InRange, Search.Found;
    var good := LineFirst(t, p);
    LineFirstStays(search, down, t, t, p);
    LineFirstStays(search, down, t, p, p);
    LineFirstStays(search, down, t, Pixel(p.x, t.y), p);
    LineFirstRuns(search, down, t, p);
    LineFirstFalls(search, down, t, p);
    EmptyRun(search, down, p.y, p.x, good);
    var c := WayIsFound(search, down, t, p.x, p, good);
    FoundIsNearest(search, p, t, c);
  }

  // ---------------------------------------------------------------------
  // Few targets.
  // ---------------------------------------------------------------------

  /** What a target is ahead by at the two corners of its way to p is what it is ahead by at its ends. */
  lemma LeadsAddUp(t: Pixel, u: Pixel, p: Pixel)
    ensures Lead(t, u, Pixel(t.x, p.y)) + Lead(t, u, Pixel(p.x, t.y)) == DistSq(t, u) + Lead(t, u, p)
  {
    DistSqPositive(t, t);
    LeadIsLinear(t, u, t, Pixel(t.x, p.y));
    LeadIsLinear(t, u, p, Pixel(p.x, t.y));
    hide DistSq;
    assert 2 * (t.y - u.y) * (p.y - t.y) + 2 * (t.y - u.y) * (t.y - p.y) == 0;
  }

  /**
   * If not the distance to a nearest target t is found for p, two other targets that are on the line of p or on the
   * side of t are to blame: one is nearer than t to the one corner of the way from t to p, one is as near as t to the
   * other.
   */
  lemma WrongNeedsTwoRivals(search: Search, t: Pixel, p: Pixel) returns (u: Pixel, v: Pixel)
    requires search.Valid() && InLines(search.img, p) && Nearest(search, p, t) && search.InRange(DistSq(p, t))
    requires search.Found(p) != DistSq(p, t)
    ensures u != v && u != t && v != t
    ensures Offered(search, t.y <= p.y, p.y, u) && Lead(t, u, Pixel(t.x, p.y)) < 0
    ensures Offered(search, t.y <= p.y, p.y, v) && Lead(t, v, Pixel(p.x, t.y)) <= 0
  {
    hide DistSq, Search.Found, Search.InRange;
    var down := t.y <= p.y;
    assert !Leads(search, down, p.y, t, Pixel(t.x, p.y)) by {
      if Leads(search, down, p.y, t, Pixel(t.x, p.y)) {
        ExactByColumn(search, down, t, p);
      }
    }
    u :| Offered(search, down, p.y, u) && Lead(t, u, Pixel(t.x, p.y)) < 0;
    assert !LeadsOnLine(search, down, t, p) by {
      if LeadsOnLine(search, down, t, p) {
        ExactByLine(search, down, t, p);
      }
    }
    v :| Offered(search, down, p.y, v) && v != t && Lead(t, v, Pixel(p.x, t.y)) <= 0;
    LeadsAddUp(t, u, p);
    DistSqPositive(t, u);
  }

  ghost function Targets(search: Search): set<Pixel> {
    set p | p in Pixels(search.img) && search.Has(p)
  }

  lemma ExactWithTwoTargets(search: Search, p: Pixel)
    requires search.Valid() && InLines(search.img, p) && |Targets(search)| <= 2
    ensures ExactAt(search, p)
  {
    hide DistSq, Search.Found, Search.InRange, Lead;
    forall t | Nearest(search, p, t) && search.InRange(DistSq(p, t))
      ensures search.Found(p) == DistSq(p, t)
    {
      if search.Found(p) != DistSq(p, t) {
        var u, v := WrongNeedsTwoRivals(search, t, p);
        ThreeElements(t, u, v, Targets(search));
        assert false;
      }
    }
  }

  lemma ThreeElements<T>(x: T, y: T, z: T, s: set<T>)
    requires x in s && y in s && z in s && x != y && y != z && x != z
    ensures |s| >= 3
  {
    assert |s - {x} - {y}| >= 1 by {
      assert z in s - {x} - {y};
    }
  }

  // ---------------------------------------------------------------------
  // Narrow and low rasters.
  // ---------------------------------------------------------------------

  lemma InRaster(search: Search, t: Pixel)
    requires search.Valid() && search.Has(t)
    ensures 0 <= t.x < search.n && 0 <= t.y < |search.img|
  {
  }

  /** A nearest target is found if no other one is on the other side of its column. */
  lemma ExactFromEdge(search: Search, down: bool, t: Pixel, p: Pixel)
    requires search.Valid() && InLines(search.img, p) && Nearest(search, p, t) && search.InRange(DistSq(p, t))
    requires Seen(down, p.y, t) && ((t.x == 0 && 0 <= p.x) || (t.x == search.n - 1 && p.x <= t.x))
    ensures search.Found(p) == DistSq(p, t)
  {
    hide DistSq, Search.Found, Search.InRange;
    var corner := Pixel(t.x, p.y);
    forall u | Offered(search, down, p.y, u)
      ensures Lead(t, u, corner) >= 0
    {
      InRaster(search, u);
      LeadIsLinear(t, u, p, corner);
      SignOfProduct(2 * (t.x - u.x), t.x - p.x);
    }
    ExactByColumn(search, down, t, p);
  }

  lemma SquaresDifferNotByTwo(a: int, b: int)
    ensures Square(a) - Square(b) != 2
  {
    SquareModFour(a);
    SquareModFour(b);
  }

  lemma SquareModFour(a: int)
    ensures Square(a) % 4 == 0 || Square(a) % 4 == 1
  {
    var h := a / 2;
    assert a == 2 * h || a == 2 * h + 1;
    assert Square(2 * h) == 4 * (h * h);
    assert Square(2 * h + 1) == 4 * (h * h + h) + 1;
  }

  /** In three columns: if a target spoils the column of t, it is as near to p itself. */
  lemma RivalIsNearest(t: Pixel, u: Pixel, p: Pixel)
    requires Lead(t, u, p) >= 0 && Lead(t, u, Pixel(t.x, p.y)) < 0
    requires 0 <= t.x <= 2 && 0 <= u.x <= 2 && 0 <= p.x <= 2
    ensures Lead(t, u, p) == 0 && u.x != 1 && p.x == 2 - u.x
  {
    LeadIsLinear(t, u, p, Pixel(t.x, p.y));
    SignOfProduct(2 * (t.x - u.x), t.x - p.x);
    assert t.x == 1;
    SquaresDifferNotByTwo(t.y - p.y, u.y - p.y);
  }

  lemma ExactWhenNarrow(search: Search, p: Pixel)
    requires search.Valid() && InLines(search.img, p) && search.n <= 3
    ensures ExactAt(search, p)
  {
    hide DistSq, Search.Found, Search.InRange;
    forall t | Nearest(search, p, t) && search.InRange(DistSq(p, t))
      ensures search.Found(p) == DistSq(p, t)
    {
      var down := t.y <= p.y;
      if Leads(search, down, p.y, t, Pixel(t.x, p.y)) {
        ExactByColumn(search, down, t, p);
      } else {
        var u :| Offered(search, down, p.y, u) && Lead(t, u, Pixel(t.x, p.y)) < 0;
        InRaster(search, t);
        InRaster(search, u);
        RivalIsNearest(t, u, p);
        ExactFromEdge(search, down, u, p);
      }
    }
  }

  /** A neighbour of a nearest target in its column is not nearer to another target, unless that is p's. */
  lemma LeadsNextToTarget(t: Pixel, u: Pixel, p: Pixel)
    requires Lead(t, u, p) >= 0 && -1 <= t.y - p.y <= 1
    ensures Lead(t, u, Pixel(t.x, p.y)) >= 0
  {
    var corner := Pixel(t.x, p.y);
    DistSqPositive(corner, u);
    DistSqPositive(t, u);
    assert DistSq(corner, t) <= 1;
    if u == corner && t.y != p.y {
      assert false;
    }
  }

  lemma LeadsFromEdge(search: Search, down: bool, t: Pixel, p: Pixel)
    requires search.Valid() && Nearest(search, p, t) && Seen(down, p.y, t) && t.y != p.y
    requires (t.y == 0 && 0 <= p.y) || (t.y == |search.img| - 1 && p.y <= t.y)
    ensures LeadsOnLine(search, down, t, p)
  {
    hide DistSq;
    var corner := Pixel(p.x, t.y);
    forall u | Offered(search, down, p.y, u) && u != t
      ensures Lead(t, u, corner) > 0 || Lead(t, u, corner) == Lead(t, u, p) == 0
    {
      InRaster(search, u);
      LeadIsLinear(t, u, p, corner);
      SignOfProduct(2 * (t.y - u.y), t.y - p.y);
    }
  }

  lemma ExactWhenLow(search: Search, p: Pixel)
    requires search.Valid() && InLines(search.img, p) && |search.img| <= 3
    ensures ExactAt(search, p)
  {
    hide DistSq, Search.Found, Search.InRange, LeadsOnLine;
    forall t | Nearest(search, p, t) && search.InRange(DistSq(p, t))
      ensures search.Found(p) == DistSq(p, t)
    {
      var down := t.y <= p.y;
      if -1 <= t.y - p.y <= 1 {
        forall u | Offered(search, down, p.y, u)
          ensures Lead(t, u, Pixel(t.x, p.y)) >= 0
        {
          LeadsNextToTarget(t, u, p);
        }
        ExactByColumn(search, down, t, p);
      } else {
        InRaster(search, t);
        LeadsFromEdge(search, down, t, p);
        ExactByLine(search, down, t, p);
      }
    }
  }

  // ---------------------------------------------------------------------
  // Rasters with a wrong result.
  // ---------------------------------------------------------------------

  const ABOVE := Pixel(2, 0)
  const MISSED := Pixel(1, 1)
  const BESIDE := Pixel(0, 3)
  const WRONG := Pixel(3, 3)

  function WrongImage(n: nat, h: nat): (img: seq<seq<int>>)
    ensures |img| == h && forall y :: 0 <= y < h ==> |img[y]| == n
    ensures forall y, x :: 0 <= y < h && 0 <= x < n ==>
              img[y][x] == if Pixel(x, y) in {ABOVE, MISSED, BESIDE} then 1 else 0
  {
    seq(h, y requires 0 <= y < h => seq(n, x requires 0 <= x < n =>
      if Pixel(x, y) in {ABOVE, MISSED, BESIDE} then 1 else 0))
  }

  /** A raster of at least four lines and columns with three targets. */
  function WrongSearch(n: nat, h: nat): (search: Search)
    requires n >= 4 && h >= 4
    ensures search.Valid() && search.n == n && |search.img| == h && InLines(search.img, WRONG)
  {
    Search(WrongImage(n, h), n, [], MaxDist(None, n, h))
  }

  lemma WrongTargets(n: nat, h: nat, t: Pixel)
    requires n >= 4 && h >= 4
    ensures WrongSearch(n, h).Has(t) <==> t in {ABOVE, MISSED, BESIDE}
  {
  }

  lemma WrongInRange(n: nat, h: nat, q: Pixel, t: Pixel)
    requires n >= 4 && h >= 4 && 0 <= q.x < n && 0 <= q.y < h && t in {ABOVE, MISSED, BESIDE}
    ensures WrongSearch(n, h).InRange(DistSq(q, t))
  {
    hide DistSq, Square, Search.InRange;
    WrongTargets(n, h, t);
    EuclidBelowManhattan(q, t);
    ReachIsInRange(WrongSearch(n, h), q, t, DistSq(q, t));
  }

  /** Nothing but c is good. */
  function Only(c: Pixel): Goal {
    (q: Pixel, c': Pixel) => c' == c
  }

  lemma OnlyStays(n: nat, h: nat, c: Pixel, q: Pixel)
    requires n >= 4 && h >= 4 && 0 <= q.x < n && 0 <= q.y < h && c in {ABOVE, MISSED, BESIDE}
    requires forall c' :: c' in {ABOVE, MISSED, BESIDE} && c'.y <= q.y ==> DistSq(q, c) <= DistSq(q, c')
    ensures Stays(WrongSearch(n, h), true, q, Only(c))
  {
    hide DistSq, Search.InRange, Search.Has;
    WrongInRange(n, h, q, c);
    forall c' | Offered(WrongSearch(n, h), true, q.y, c')
      ensures DistSq(q, c) <= DistSq(q, c')
    {
      WrongTargets(n, h, c');
    }
  }

  lemma OnlyPasses(n: nat, h: nat, c: Pixel, q': Pixel, q: Pixel)
    requires n >= 4 && h >= 4 && 0 <= q.x < n && 0 <= q.y < h && c in {ABOVE, MISSED, BESIDE}
    requires forall c' :: c' in {ABOVE, MISSED, BESIDE} && c'.y <= q.y && c' != c ==> DistSq(q, c) < DistSq(q, c')
    ensures Passes(WrongSearch(n, h), true, q', q, Only(c))
  {
    hide DistSq, Search.InRange, Search.Has;
    WrongInRange(n, h, q, c);
    forall c' | Offered(WrongSearch(n, h), true, q.y, c') && c' != c
      ensures DistSq(q, c) < DistSq(q, c')
    {
      WrongTargets(n, h, c');
    }
  }

  lemma AboveIsNearest(q: Pixel, c: Pixel)
    requires q == ABOVE || (q.x >= 3 && 0 <= q.y <= 2)
    requires c in {ABOVE, MISSED, BESIDE} && c.y <= q.y
    ensures DistSq(q, ABOVE) <= DistSq(q, c)
  {
    assert DistSq(q, ABOVE) == q.x * q.x - 4 * q.x + 4 + q.y * q.y;
    assert DistSq(q, MISSED) == q.x * q.x - 2 * q.x + 1 + q.y * q.y - 2 * q.y + 1;
  }

  lemma AboveStays(n: nat, h: nat, q: Pixel)
    requires n >= 4 && h >= 4 && (q == ABOVE || (3 <= q.x < n && 0 <= q.y <= 2))
    ensures Stays(WrongSearch(n, h), true, q, Only(ABOVE))
  {
    hide DistSq, Stays;
    forall c | c in {ABOVE, MISSED, BESIDE} && c.y <= q.y
      ensures DistSq(q, ABOVE) <= DistSq(q, c)
    {
      AboveIsNearest(q, c);
    }
    OnlyStays(n, h, ABOVE, q);
  }

  lemma AboveWay(n: nat, h: nat, i: nat)
    requires n >= 4 && h >= 4 && 3 <= i < n
    ensures Way(WrongSearch(n, h), true, ABOVE, i, Pixel(i, 2), Only(ABOVE))
  {
    hide Search.InRange, Search.Has, Stays, Passes, WrongSearch, DistSq;
    AboveStays(n, h, ABOVE);
    AboveStays(n, h, Pixel(i, 0));
    AboveStays(n, h, Pixel(i, 1));
    AboveStays(n, h, Pixel(i, 2));
    forall r | 2 < r <= i
      ensures Passes(WrongSearch(n, h), true, Toward(2, Pixel(r, 0)), Pixel(r, 0), Only(ABOVE))
    {
      OnlyPasses(n, h, ABOVE, Toward(2, Pixel(r, 0)), Pixel(r, 0));
    }
  }

  /** Right of column 2 the first pass comes to line 3 with the target above. */
  lemma AboveComesDown(n: nat, h: nat, i: nat)
    requires n >= 4 && h >= 4 && 3 <= i < n
    ensures WrongSearch(n, h).Before(3, true).Near(i) == ABOVE
  {
    hide Search.Has, Way, WrongSearch, Search.After, Search.Before, Settled;
    WrongTargets(n, h, ABOVE);
    WrongTargets(n, h, Pixel(i, 3));
    AboveWay(n, h, i);
    WayServes(WrongSearch(n, h), true, ABOVE, i, Pixel(i, 2), Only(ABOVE));
    NextLine(WrongSearch(n, h), 3, true, i, Only(ABOVE));
  }

  /** The first sweep over line 3 takes the target beside as far as column 2. */
  lemma BesideRuns(n: nat, h: nat)
    requires n >= 4 && h >= 4
    ensures var search := WrongSearch(n, h);
            search.Swept(search.Before(3, true), 3, true, n).Near(2) == BESIDE
  {
    hide Search.InRange, Search.Has, Stays, Passes, WrongSearch, Search.Before, Search.Swept, Keeps;
    var search := WrongSearch(n, h);
    WrongTargets(n, h, BESIDE);
    var s := search.Before(3, true);
    PassKeeps(search, 3, true);
    SweepStarts(search, s, 3, true, BESIDE, Only(BESIDE));
    OnlyPasses(n, h, BESIDE, Pixel(0, 3), Pixel(1, 3));
    OnlyPasses(n, h, BESIDE, Pixel(1, 3), Pixel(2, 3));
    SweepRuns(search, s, 3, true, true, 0, 2, Only(BESIDE));
  }

  /** A target that is not named from column lo on is not taken over if the entry before does not name it. */
  lemma {:induction false} SweepAvoids(search: Search, s: LineState, y: nat, forward: bool, lo: nat, c: Pixel, k: nat)
    requires search.Valid() && y < |search.img| && s.Valid(search.n) && k <= search.n && 1 <= lo < search.n
    requires c.x >= 0 && c.y != y && forall i :: lo <= i < search.n ==> s.Near(i) != c
    requires (if forward then search.Swept(s, y, forward, search.n) else s).Near(lo - 1) != c
    ensures forall i :: lo <= i < search.n ==> search.Swept(s, y, forward, k).Near(i) != c
  {
    hide Search.Stepped, SquareReal, DistSq, Search.Has;
    if k == 0 {
    } else {
      SweepAvoids(search, s, y, forward, lo, c, k - 1);
      var s1, i := search.Swept(s, y, forward, k - 1), Position(search.n, forward, k - 1);
      StepNames(search, s1, y, i, forward);
      if i == lo {
        assert search.Swept(s, y, forward, 0) == s;
        SweptEntry(search, s, y, forward, lo - 1, if forward then k - 1 else 0, if forward then search.n else k - 1);
      }
    }
  }

  /** A sweep leaves a proximity alone, or makes it the distance of what it names then. */
  lemma SweepProx(search: Search, s: LineState, y: nat, forward: bool, i: nat)
    requires search.Valid() && y < |search.img| && s.Valid(search.n) && i < search.n
    ensures var s' := search.Swept(s, y, forward, search.n);
            s'.prox[i] == s.prox[i] || (s'.nearX[i] != -1 && s'.prox[i] == DistSq(Pixel(i, y), s'.Near(i)))
  {
    hide Search.Stepped, Search.Swept, SquareReal, DistSq;
    var s1 := EntryStep(search, s, y, forward, i);
    StepNames(search, s1, y, i, forward);
  }

  lemma SweepNotEight(n: nat, h: nat, s: LineState, forward: bool, down: bool)
    requires n >= 4 && h >= 4 && s.Valid(n) && s.prox[3] != 8
    requires Keeps(WrongSearch(n, h), s, 3, down)
    requires WrongSearch(n, h).Swept(s, 3, forward, n).Near(3) != MISSED
    ensures WrongSearch(n, h).Swept(s, 3, forward, n).prox[3] != 8
  {
    hide WrongSearch, Search.Swept, Search.Has;
    var search := WrongSearch(n, h);
    SweepKeeps(search, s, 3, forward, n, down);
    SweepProx(search, s, 3, forward, 3);
    WrongTargets(n, h, search.Swept(s, 3, forward, n).Near(3));
  }

  lemma FirstPassMisses(n: nat, h: nat)
    requires n >= 4 && h >= 4
    ensures WrongSearch(n, h).After(3, true).prox[3] != 8
  {
    hide WrongSearch, Search.Swept, Keeps;
    var search := WrongSearch(n, h);
    var s := search.Before(3, true);
    var s1 := search.Swept(s, 3, true, n);
    forall i | 3 <= i < n
      ensures s.Near(i) != MISSED
    {
      AboveComesDown(n, h, i);
    }
    BesideRuns(n, h);
    SweepAvoids(search, s, 3, true, 3, MISSED, n);
    SweepAvoids(search, s1, 3, false, 3, MISSED, n);
    PassKeeps(search, 3, true);
    SweepKeeps(search, s, 3, true, n, true);
    assert s.prox[3] == -1;
    SweepNotEight(n, h, s, true, true);
    SweepNotEight(n, h, s1, false, true);
  }

  lemma SecondPassMisses(n: nat, h: nat)
    requires n >= 4 && h >= 4
    ensures WrongSearch(n, h).Found(WRONG) != 8
  {
    hide WrongSearch, Search.Swept, Search.Has;
    var search := WrongSearch(n, h);
    FirstPassMisses(n, h);
    PassKeeps(search, 3, false);
    var s := search.Before(3, false);
    var s1 := search.Swept(s, 3, false, n);
    SweepKeeps(search, s, 3, false, n, false);
    SweepKeeps(search, s1, 3, true, n, false);
    assert s.prox == search.After(3, true).prox;
    SweepNotEight(n, h, s, false, false);
    SweepNotEight(n, h, s1, true, false);
  }

  /** In every raster of at least four lines and columns with these three targets a pixel has a wrong result. */
  lemma NotEuclidean(n: nat, h: nat)
    requires n >= 4 && h >= 4
    ensures var search := WrongSearch(n, h);
            Nearest(search, WRONG, MISSED) && DistSq(WRONG, MISSED) == 8 && search.Found(WRONG) != 8
    ensures |Targets(WrongSearch(n, h))| == 3 && !ExactAt(WrongSearch(n, h), WRONG)
  {
    hide Search.Found, Search.Has, Search.InRange;
    var search := WrongSearch(n, h);
    SecondPassMisses(n, h);
    WrongTargets(n, h, MISSED);
    WrongInRange(n, h, WRONG, MISSED);
    forall u | search.Has(u)
      ensures Lead(MISSED, u, WRONG) >= 0
    {
      WrongTargets(n, h, u);
    }
    assert Targets(search) == {ABOVE, MISSED, BESIDE} by {
      forall t
        ensures t in Targets(search) <==> t in {ABOVE, MISSED, BESIDE}
      {
        WrongTargets(n, h, t);
      }
    }
    assert |{ABOVE, MISSED, BESIDE}| == 3;
  }

  // ---------------------------------------------------------------------
  // When all results are exact.
  // ---------------------------------------------------------------------

  /** All results are exact in all rasters of n columns and h lines with at most k targets. */
  ghost predicate AlwaysExact(n: nat, h: nat, k: nat) {
    forall search: Search, p: Pixel ::
      search.Valid() && search.n == n && |search.img| == h && |Targets(search)| <= k && InLines(search.img, p) ==>
        ExactAt(search, p)
  }

  /** That is so if and only if a dimension is below four or there are not more than two targets. */
  lemma AlwaysExactExactlyWhen(n: nat, h: nat, k: nat)
    ensures AlwaysExact(n, h, k) <==> n <= 3 || h <= 3 || k <= 2
  {
    hide ExactAt, Targets;
    if n <= 3 || h <= 3 || k <= 2 {
      forall search: Search, p: Pixel | search.Valid() && search.n == n && |search.img| == h
                                        && |Targets(search)| <= k && InLines(search.img, p)
        ensures ExactAt(search, p)
      {
        if n <= 3 {
          ExactWhenNarrow(search, p);
        } else if h <= 3 {
          ExactWhenLow(search, p);
        } else {
          ExactWithTwoTargets(search, p);
        }
      }
    } else {
      NotEuclidean(n, h);
    }
  }
}

/** Pixels, rasters given line by line, and the paths of adjacent pixels with equal values
    that decide which pixels belong to one polygon. */
module Connectivity {

  datatype Pixel = Pixel(x: int, y: int)

  /** What "same polygon" is built from: 4- or 8-connectedness, the test that two
      pixel values are equal, and the one that decides about most diagonals. */
  datatype Rule<!T> = Rule(conn: int, eq: (T, T) -> bool, same: (T, T) -> bool)

  /** The rules the enumerators are built for: the integer one compares with == throughout; the float one compares most
      diagonals with ==, and all else with a relation that need not be transitive. */
  ghost predicate ValidRule<T(!new)>(rule: Rule<T>) {
    && (rule.conn == 4 || rule.conn == 8)
    && (forall a :: rule.eq(a, a))
    && (forall a, b :: rule.eq(a, b) ==> rule.eq(b, a))
    && (forall a, b :: rule.same(a, b) ==> rule.eq(a, b) && rule.same(b, a))
  }

  predicate InLines<T>(img: seq<seq<T>>, p: Pixel) {
    0 <= p.y < |img| && 0 <= p.x < |img[p.y]|
  }

  function At<T>(img: seq<seq<T>>, p: Pixel): T
    requires InLines(img, p)
  {
    img[p.y][p.x]
  }

  predicate SameShape<T, U>(lines: seq<seq<T>>, others: seq<seq<U>>) {
    |others| == |lines| && forall j :: 0 <= j < |lines| ==> |others[j]| == |lines[j]|
  }

  ghost function Pixels<T>(img: seq<seq<T>>): (r: set<Pixel>)
    ensures forall p :: p in r <==> InLines(img, p)
  {
    set y, x | 0 <= y < |img| && 0 <= x < |img[y]| :: Pixel(x, y)
  }

  predicate Adjacent(conn: int, p: Pixel, q: Pixel) {
    && p != q
    && -1 <= p.x - q.x <= 1
    && -1 <= p.y - q.y <= 1
    && (conn == 8 || p.x == q.x || p.y == q.y)
  }

  predicate Equal<T>(img: seq<seq<T>>, rule: Rule<T>, p: Pixel, q: Pixel) {
    InLines(img, p) && InLines(img, q) && rule.eq(At(img, p), At(img, q))
  }

  predicate Same<T>(img: seq<seq<T>>, rule: Rule<T>, p: Pixel, q: Pixel) {
    InLines(img, p) && InLines(img, q) && rule.same(At(img, p), At(img, q))
  }

  /**
   * Where an equality of diagonal neighbours goes unnoticed. With an equal pixel to the left, the lower one has its
   * diagonals in the line above tested for sameness. Otherwise, with an equal pixel above, it has them not tested at
   * all, which leaves out those that do not equal the pixel above. Otherwise the upper left one is tested for equality,
   * and the upper right one as well unless the upper left one is equal: then it is tested for sameness.
   */
  predicate Missed<T>(img: seq<seq<T>>, rule: Rule<T>, lower: Pixel, upper: Pixel) {
    && lower.y == upper.y + 1 && lower.x != upper.x
    && if Equal(img, rule, lower, Pixel(lower.x - 1, lower.y)) then !Same(img, rule, lower, upper)
       else if Equal(img, rule, lower, Pixel(lower.x, upper.y)) then !Equal(img, rule, Pixel(lower.x, upper.y), upper)
       else upper.x > lower.x && Equal(img, rule, lower, Pixel(lower.x - 1, upper.y)) && !Same(img, rule, lower, upper)
  }

  /** Adjacent pixels with equal values are linked, but for what is missed. */
  predicate Linked<T>(img: seq<seq<T>>, rule: Rule<T>, p: Pixel, q: Pixel) {
    && Adjacent(rule.conn, p, q)
    && Equal(img, rule, p, q)
    && !Missed(img, rule, p, q) && !Missed(img, rule, q, p)
  }

  ghost predicate IsPath<T>(img: seq<seq<T>>, rule: Rule<T>, path: seq<Pixel>) {
    && |path| > 0
    && InLines(img, path[0])
    && forall i :: 0 <= i < |path| - 1 ==> Linked(img, rule, path[i], path[i + 1])
  }

  ghost predicate Joins<T>(img: seq<seq<T>>, rule: Rule<T>, path: seq<Pixel>, p: Pixel, q: Pixel) {
    IsPath(img, rule, path) && path[0] == p && path[|path| - 1] == q
  }

  /** p and q lie in one polygon: a path of linked pixels joins them. */
  ghost predicate Connected<T>(img: seq<seq<T>>, rule: Rule<T>, p: Pixel, q: Pixel) {
    exists path :: Joins(img, rule, path, p, q)
  }

  lemma ConnectedSelf<T>(img: seq<seq<T>>, rule: Rule<T>, p: Pixel)
    requires InLines(img, p)
    ensures Connected(img, rule, p, p)
  {
    assert Joins(img, rule, [p], p, p);
  }

  lemma LinkedConnected<T>(img: seq<seq<T>>, rule: Rule<T>, p: Pixel, q: Pixel)
    requires Linked(img, rule, p, q)
    ensures Connected(img, rule, p, q)
  {
    assert Joins(img, rule, [p, q], p, q);
  }

  lemma ConnectedTransitive<T>(img: seq<seq<T>>, rule: Rule<T>, p: Pixel, q: Pixel, r: Pixel)
    requires Connected(img, rule, p, q) && Connected(img, rule, q, r)
    ensures Connected(img, rule, p, r)
  {
    var a :| Joins(img, rule, a, p, q);
    var b :| Joins(img, rule, b, q, r);
    var c := a + b[1..];
    forall i | 0 <= i < |c| - 1
      ensures Linked(img, rule, c[i], c[i + 1])
    {
      if i >= |a| - 1 {
        assert c[i + 1] == b[i + 1 - |a| + 1];
        assert c[i] == b[i - |a| + 1];
      }
    }
    assert Joins(img, rule, c, p, r);
  }

  lemma ConnectedSymmetric<T(!new)>(img: seq<seq<T>>, rule: Rule<T>, p: Pixel, q: Pixel)
    requires ValidRule(rule) && Connected(img, rule, p, q)
    ensures Connected(img, rule, q, p)
  {
    var a :| Joins(img, rule, a, p, q);
    var b := seq(|a|, i requires 0 <= i < |a| => a[|a| - 1 - i]);
    PathInLines(img, rule, a);
    forall i | 0 <= i < |b| - 1
      ensures Linked(img, rule, b[i], b[i + 1])
    {
      assert Linked(img, rule, a[|a| - 2 - i], a[|a| - 2 - i + 1]);
    }
    assert Joins(img, rule, b, q, p);
  }

  lemma PathInLines<T>(img: seq<seq<T>>, rule: Rule<T>, path: seq<Pixel>)
    requires IsPath(img, rule, path)
    ensures forall i :: 0 <= i < |path| ==> InLines(img, path[i])
  {
    forall i | 0 <= i < |path|
      ensures InLines(img, path[i])
    {
      if i > 0 {
        assert Linked(img, rule, path[i - 1], path[i - 1 + 1]);
      }
    }
  }

  lemma ConnectedInLines<T>(img: seq<seq<T>>, rule: Rule<T>, p: Pixel, q: Pixel)
    requires Connected(img, rule, p, q)
    ensures InLines(img, p) && InLines(img, q)
  {
    var a :| Joins(img, rule, a, p, q);
    PathInLines(img, rule, a);
  }

  lemma LinkedMoreLines<T>(img: seq<seq<T>>, line: seq<T>, rule: Rule<T>, p: Pixel, q: Pixel)
    requires InLines(img, p) && InLines(img, q)
    ensures Linked(img + [line], rule, p, q) <==> Linked(img, rule, p, q)
  {
    MissedMoreLines(img, line, rule, p, q);
    MissedMoreLines(img, line, rule, q, p);
    hide Missed;
  }

  lemma MissedMoreLines<T>(img: seq<seq<T>>, line: seq<T>, rule: Rule<T>, lower: Pixel, upper: Pixel)
    requires InLines(img, lower) && InLines(img, upper)
    ensures Missed(img + [line], rule, lower, upper) <==> Missed(img, rule, lower, upper)
  {
  }

  /** Feeding further lines never separates what was connected. */
  lemma ConnectedMoreLines<T>(img: seq<seq<T>>, line: seq<T>, rule: Rule<T>, p: Pixel, q: Pixel)
    requires Connected(img, rule, p, q)
    ensures Connected(img + [line], rule, p, q)
  {
    var a :| Joins(img, rule, a, p, q);
    forall i | 0 <= i < |a| - 1
      ensures Linked(img + [line], rule, a[i], a[i + 1])
    {
      assert Linked(img, rule, a[i], a[i + 1]);
      LinkedMoreLines(img, line, rule, a[i], a[i + 1]);
    }
    hide Linked;
    assert Joins(img + [line], rule, a, p, q);
  }

  /** Anything that agrees across every link agrees across every connection. */
  lemma {:induction false} ConstantAlongPath<T, V>(img: seq<seq<T>>, rule: Rule<T>, f: Pixel -> V, path: seq<Pixel>)
    requires IsPath(img, rule, path)
    requires forall p, q :: Linked(img, rule, p, q) ==> f(p) == f(q)
    ensures f(path[0]) == f(path[|path| - 1])
  {
    if |path| > 1 {
      assert Linked(img, rule, path[0], path[0 + 1]);
      var rest := path[1..];
      forall i | 0 <= i < |rest| - 1
        ensures Linked(img, rule, rest[i], rest[i + 1])
      {
        assert Linked(img, rule, path[i + 1], path[i + 1 + 1]);
      }
      ConstantAlongPath(img, rule, f, rest);
    }
  }

  /** The lines a polygon touches form an interval. */
  lemma {:induction false} PathCrossesEveryLine<T>(img: seq<seq<T>>, rule: Rule<T>, path: seq<Pixel>, y: int)
    requires IsPath(img, rule, path)
    requires path[0].y <= y <= path[|path| - 1].y || path[|path| - 1].y <= y <= path[0].y
    ensures exists i :: 0 <= i < |path| && path[i].y == y
  {
    if |path| == 1 {
      assert path[0].y == y;
    } else if path[0].y != y {
      assert Linked(img, rule, path[0], path[0 + 1]);
      var rest := path[1..];
      forall i | 0 <= i < |rest| - 1
        ensures Linked(img, rule, rest[i], rest[i + 1])
      {
        assert Linked(img, rule, path[i + 1], path[i + 1 + 1]);
      }
      PathCrossesEveryLine(img, rule, rest, y);
      var i :| 0 <= i < |rest| && rest[i].y == y;
      assert path[i + 1].y == y;
    }
  }

  lemma PrefixConnected<T>(img: seq<seq<T>>, rule: Rule<T>, path: seq<Pixel>, i: nat)
    requires IsPath(img, rule, path) && i < |path|
    ensures Connected(img, rule, path[0], path[i])
  {
    var a := path[..i + 1];
    forall j | 0 <= j < |a| - 1
      ensures Linked(img, rule, a[j], a[j + 1])
    {
      assert Linked(img, rule, path[j], path[j + 1]);
    }
    assert Joins(img, rule, a, path[0], path[i]);
  }

  lemma ConnectedCrossesEveryLine<T>(img: seq<seq<T>>, rule: Rule<T>, p: Pixel, q: Pixel, y: int)
    requires Connected(img, rule, p, q)
    requires p.y <= y <= q.y || q.y <= y <= p.y
    ensures exists r: Pixel :: r.y == y && Connected(img, rule, p, r)
  {
    var path: seq<Pixel> :| Joins(img, rule, path, p, q);
    PathCrossesEveryLine(img, rule, path, y);
    var i :| 0 <= i < |path| && path[i].y == y;
    PrefixConnected(img, rule, path, i);
  }
}

/**
 * The filling of holes in the back map of a geolocation array: scans over the map that work in place, but mark what
 * they fill with descending values so that a scan never uses what it has filled itself.
 */
module BackMaps {
  import opened Connectivity
  import opened Numbers

  /** An entry of the back map: its mark, 0 for a hole, and the location it maps to. */
  datatype Cell = Cell(mark: nat, x: real, y: real)

  type Grid = seq<seq<Cell>>

  ghost predicate IsGrid(g: Grid, w: nat, h: nat) {
    |g| == h && forall y :: 0 <= y < h ==> |g[y]| == w
  }

  // ---------------------------------------------------------------------
  // A simultaneous update.
  // ---------------------------------------------------------------------

  datatype Sums = Sums(n: nat, x: real, y: real)

  /** The neighbours of a cell, in the order in which they are added up. */
  function Neighbour(p: Pixel, k: nat): Pixel
    requires k < 8
  {
    match k
    case 0 => Pixel(p.x - 1, p.y)
    case 1 => Pixel(p.x + 1, p.y)
    case 2 => Pixel(p.x, p.y - 1)
    case 3 => Pixel(p.x, p.y + 1)
    case 4 => Pixel(p.x - 1, p.y - 1)
    case 5 => Pixel(p.x + 1, p.y - 1)
    case 6 => Pixel(p.x - 1, p.y + 1)
    case 7 => Pixel(p.x + 1, p.y + 1)
  }

  /** Cell q is in the map and marked higher than good. */
  predicate Good(g: Grid, q: Pixel, good: nat) {
    InLines(g, q) && At(g, q).mark > good
  }

  function AddCell(s: Sums, g: Grid, q: Pixel, good: nat): Sums {
    if Good(g, q, good) then Sums(s.n + 1, s.x + At(g, q).x, s.y + At(g, q).y) else s
  }

  function Sum(g: Grid, p: Pixel, good: nat, k: nat): Sums
    requires k <= 8
  {
    if k == 0 then Sums(0, 0.0, 0.0) else
    AddCell(Sum(g, p, good, k - 1), g, Neighbour(p, k - 1), good)
  }

  lemma SumTwo(g: Grid, p: Pixel, good: nat, k: nat)
    requires 2 <= k <= 8
    ensures var s := AddCell(Sum(g, p, good, k - 2), g, Neighbour(p, k - 2), good);
            Sum(g, p, good, k) == AddCell(s, g, Neighbour(p, k - 1), good)
  {
  }

  /** A hole becomes the average of its good neighbours, if it has any. */
  function NewCell(g: Grid, p: Pixel, good: nat): Cell
    requires InLines(g, p)
  {
    if At(g, p).mark != 0 then At(g, p) else
    var s := Sum(g, p, good, 8);
    if s.n == 0 then At(g, p) else Cell(good, s.x / s.n as real, s.y / s.n as real)
  }

  /** All cells at once. */
  ghost function Update(g: Grid, good: nat): (r: Grid)
    ensures |r| == |g| && forall y :: 0 <= y < |g| ==> |r[y]| == |g[y]|
    ensures forall p :: InLines(g, p) ==> InLines(r, p) && At(r, p) == NewCell(g, p, good)
  {
    seq(|g|, y requires 0 <= y < |g| =>
      seq(|g[y]|, x requires 0 <= x < |g[y]| => NewCell(g, Pixel(x, y), good)))
  }

  /** The first k updates, which mark with maxIter, maxIter - 1 and so on. */
  ghost function Updates(g: Grid, maxIter: nat, k: nat): (r: Grid)
    requires k <= maxIter
    ensures |r| == |g| && forall y :: 0 <= y < |g| ==> |r[y]| == |g[y]|
  {
    if k == 0 then g else Update(Updates(g, maxIter, k - 1), maxIter - (k - 1))
  }

  // ---------------------------------------------------------------------
  // The scans.
  // ---------------------------------------------------------------------

  predicate Before(p: Pixel, x: int, y: int) {
    p.y < y || (p.y == y && p.x < x)
  }

  /** The cells before (x, y) have been updated, the others have not. */
  ghost predicate ScannedTo(g: Grid, now: Grid, good: nat, x: int, y: int) {
    && |now| == |g| && (forall j :: 0 <= j < |g| ==> |now[j]| == |g[j]|)
    && forall p :: InLines(g, p) ==> At(now, p) == if Before(p, x, y) then NewCell(g, p, good) else At(g, p)
  }

  /** What a scan has filled is not good for it, so the neighbours add up to what they did before the scan. */
  lemma {:induction false} ScanSum(g: Grid, now: Grid, p: Pixel, good: nat, k: nat, x: int, y: int)
    requires k <= 8 && ScannedTo(g, now, good, x, y)
    ensures Sum(now, p, good, k) == Sum(g, p, good, k)
  {
    if k == 0 {
    } else {
      ScanSum(g, now, p, good, k - 1, x, y);
      var q := Neighbour(p, k - 1);
      assert InLines(now, q) <==> InLines(g, q);
      assert Good(now, q, good) <==> Good(g, q, good);
    }
  }

  class BackMap {
    const mapWidth: nat
    const mapHeight: nat
    const backMapX: array2<real>
    const backMapY: array2<real>
    const validFlag: array2<nat>

    constructor (mapWidth: nat, mapHeight: nat)
      ensures Valid() && fresh(Repr())
      ensures this.mapWidth == mapWidth && this.mapHeight == mapHeight
      ensures forall p :: InLines(Cells(), p) ==> At(Cells(), p) == Cell(0, -1.0, -1.0)
    {
      this.mapWidth, this.mapHeight := mapWidth, mapHeight;
      backMapX := new real[mapHeight, mapWidth]((_, _) => -1.0);
      backMapY := new real[mapHeight, mapWidth]((_, _) => -1.0);
      validFlag := new nat[mapHeight, mapWidth]((_, _) => 0);
    }

    ghost function Repr(): set<object> {
      {backMapX, backMapY, validFlag}
    }

    ghost predicate Valid() {
      && backMapX != backMapY
      && backMapX.Length0 == backMapY.Length0 == validFlag.Length0 == mapHeight
      && backMapX.Length1 == backMapY.Length1 == validFlag.Length1 == mapWidth
    }

    ghost function Cells(): (g: Grid)
      requires Valid()
      reads backMapX, backMapY, validFlag
      ensures IsGrid(g, mapWidth, mapHeight)
      ensures forall y, x :: 0 <= y < mapHeight && 0 <= x < mapWidth ==>
                g[y][x] == Cell(validFlag[y, x], backMapX[y, x], backMapY[y, x])
    {
      seq(mapHeight, y requires 0 <= y < mapHeight reads backMapX, backMapY, validFlag =>
        seq(mapWidth, x requires 0 <= x < mapWidth reads backMapX, backMapY, validFlag =>
          Cell(validFlag[y, x], backMapX[y, x], backMapY[y, x])))
    }

    /** Adds a neighbour to the sums if it is in the map and good. */
    method AddNeighbour(s: Sums, x: int, y: int, good: nat) returns (s': Sums)
      requires Valid()
      ensures s' == AddCell(s, Cells(), Pixel(x, y), good)
    {
      s' := s;
      if 0 <= x < mapWidth && 0 <= y < mapHeight && validFlag[y, x] > good {
        s' := Sums(s.n + 1, s.x + backMapX[y, x], s.y + backMapY[y, x]);
      }
    }

    method SumNeighbours(x: nat, y: nat, good: nat) returns (s: Sums)
      requires Valid() && x < mapWidth && y < mapHeight
      ensures s == Sum(Cells(), Pixel(x, y), good, 8)
    {
      hide AddCell;
      ghost var g, p := Cells(), Pixel(x, y);
      s := Sums(0, 0.0, 0.0);
      assert s == Sum(g, p, good, 0);
      s := AddNeighbour(s, x - 1, y, good);
      s := AddNeighbour(s, x + 1, y, good);
      SumTwo(g, p, good, 2);
      assert s == Sum(g, p, good, 2);
      s := AddNeighbour(s, x, y - 1, good);
      s := AddNeighbour(s, x, y + 1, good);
      SumTwo(g, p, good, 4);
      assert s == Sum(g, p, good, 4);
      s := AddNeighbour(s, x - 1, y - 1, good);
      s := AddNeighbour(s, x + 1, y - 1, good);
      SumTwo(g, p, good, 6);
      assert s == Sum(g, p, good, 6);
      s := AddNeighbour(s, x - 1, y + 1, good);
      s := AddNeighbour(s, x + 1, y + 1, good);
      SumTwo(g, p, good, 8);
    }

    /** Replaces the cell at (x, y) by what an update makes of it; tells if it was no hole. */
    method FillCell(x: nat, y: nat, good: nat) returns (set_: bool)
      requires Valid() && x < mapWidth && y < mapHeight
      modifies Repr()
      ensures set_ == (At(old(Cells()), Pixel(x, y)).mark != 0)
      ensures Cells() == old(Cells())[y := old(Cells())[y][x := NewCell(old(Cells()), Pixel(x, y), good)]]
    {
      ghost var g := Cells();
      if validFlag[y, x] != 0 {
        assert g[y] == g[y][x := g[y][x]];
        assert g == g[y := g[y]];
        return true;
      }
      var s := SumNeighbours(x, y, good);
      if s.n > 0 {
        backMapX[y, x] := s.x / s.n as real;
        backMapY[y, x] := s.y / s.n as real;
        validFlag[y, x] := good;
      }
      CellsUpdated(g, Cells(), x, y, NewCell(g, Pixel(x, y), good));
      return false;
    }

    /** One scan over the map in place is a simultaneous update; it counts the cells that were no holes. */
    method Scan(good: nat) returns (numValid: nat)
      requires Valid()
      modifies Repr()
      ensures Cells() == Update(old(Cells()), good)
      ensures numValid == mapWidth * mapHeight <==> NoHoles(old(Cells()))
    {
      hide NewCell, ScannedTo, Update, NoHolesBefore, NoHoles;
      ghost var g := Cells();
      ScanStart(g, good);
      numValid := 0;
      for y := 0 to mapHeight
        invariant ScannedTo(g, Cells(), good, 0, y)
        invariant numValid <= y * mapWidth
        invariant numValid == y * mapWidth <==> NoHolesBefore(g, 0, y)
      {
        ghost var before := numValid;
        for x := 0 to mapWidth
          invariant ScannedTo(g, Cells(), good, x, y)
          invariant before <= numValid <= before + x
          invariant numValid == y * mapWidth + x <==> NoHolesBefore(g, x, y)
        {
          ghost var now := Cells();
          var isSet := FillCell(x, y, good);
          ScanStep(g, now, Cells(), good, x, y);
          if isSet {
            numValid := numValid + 1;
          }
        }
        NextRow(g, Cells(), good, mapWidth, y);
        assert (y + 1) * mapWidth == y * mapWidth + mapWidth;
      }
      ScanEnd(g, Cells(), good);
    }

    /** The hole filling does as many simultaneous updates as it may, whether or not it stops early. */
    method FillHoles(iterations: nat)
      requires Valid()
      modifies Repr()
      ensures Cells() == Updates(old(Cells()), iterations, iterations)
    {
      hide Update, Updates, NoHoles;
      ghost var g := Cells();
      UpdatesStart(g, iterations);
      for iteration := 0 to iterations
        invariant Cells() == Updates(g, iterations, iteration)
      {
        var numValid := Scan(iterations - iteration);
        UpdatesNext(g, iterations, iteration);
        if numValid == mapWidth * mapHeight {
          NothingToFill(g, iterations, iteration, iteration + 1);
          NothingToFill(g, iterations, iteration, iterations);
          break;
        }
      }
    }
  }

  lemma UpdatesStart(g: Grid, maxIter: nat)
    ensures Updates(g, maxIter, 0) == g
  {
  }

  lemma UpdatesNext(g: Grid, maxIter: nat, k: nat)
    requires k < maxIter
    ensures Updates(g, maxIter, k + 1) == Update(Updates(g, maxIter, k), maxIter - k)
  {
  }

  lemma NoHolesStay(g: Grid, good: nat)
    requires NoHoles(g)
    ensures Update(g, good) == g
  {
    forall y | 0 <= y < |g|
      ensures Update(g, good)[y] == g[y]
    {
      forall x | 0 <= x < |g[y]|
        ensures Update(g, good)[y][x] == g[y][x]
      {
        assert At(Update(g, good), Pixel(x, y)) == At(g, Pixel(x, y));
      }
    }
  }

  /** Without holes left, further updates change nothing. */
  lemma {:induction false} NothingToFill(g: Grid, maxIter: nat, k: nat, j: nat)
    requires k <= j <= maxIter && NoHoles(Updates(g, maxIter, k))
    ensures Updates(g, maxIter, j) == Updates(g, maxIter, k)
  {
    hide NoHoles;
    if j == k {
    } else {
      NothingToFill(g, maxIter, k, j - 1);
      NoHolesStay(Updates(g, maxIter, k), maxIter - (j - 1));
    }
  }

  lemma CellsUpdated(g: Grid, g': Grid, x: nat, y: nat, c: Cell)
    requires y < |g| && x < |g[y]| && |g'| == |g| && forall j :: 0 <= j < |g| ==> |g'[j]| == |g[j]|
    requires forall j, i :: 0 <= j < |g| && 0 <= i < |g[j]| ==> g'[j][i] == if j == y && i == x then c else g[j][i]
    ensures g' == g[y := g[y][x := c]]
  {
    assert g'[y] == g[y][x := c];
    forall j | 0 <= j < |g|
      ensures g'[j] == g[y := g[y][x := c]][j]
    {
    }
  }

  ghost predicate NoHolesBefore(g: Grid, x: int, y: int) {
    forall p :: InLines(g, p) && Before(p, x, y) ==> At(g, p).mark != 0
  }

  ghost predicate NoHoles(g: Grid) {
    forall p :: InLines(g, p) ==> At(g, p).mark != 0
  }

  lemma ScanStart(g: Grid, good: nat)
    ensures ScannedTo(g, g, good, 0, 0) && NoHolesBefore(g, 0, 0)
  {
  }

  lemma ScanStep(g: Grid, now: Grid, now': Grid, good: nat, x: nat, y: nat)
    requires ScannedTo(g, now, good, x, y) && y < |now| && x < |now[y]|
    requires now' == now[y := now[y][x := NewCell(now, Pixel(x, y), good)]]
    ensures ScannedTo(g, now', good, x + 1, y)
    ensures At(now, Pixel(x, y)) == At(g, Pixel(x, y))
    ensures NoHolesBefore(g, x, y) && At(g, Pixel(x, y)).mark != 0 <==> NoHolesBefore(g, x + 1, y)
  {
    ScanSum(g, now, Pixel(x, y), good, 8, x, y);
    assert NewCell(now, Pixel(x, y), good) == NewCell(g, Pixel(x, y), good);
    hide NewCell;
  }

  lemma NextRow(g: Grid, now: Grid, good: nat, w: nat, y: nat)
    requires ScannedTo(g, now, good, w, y) && forall j :: 0 <= j < |g| ==> |g[j]| == w
    ensures ScannedTo(g, now, good, 0, y + 1)
    ensures NoHolesBefore(g, w, y) <==> NoHolesBefore(g, 0, y + 1)
  {
    hide NewCell;
  }

  lemma ScanEnd(g: Grid, now: Grid, good: nat)
    requires ScannedTo(g, now, good, 0, |g|)
    ensures now == Update(g, good)
    ensures NoHolesBefore(g, 0, |g|) <==> NoHoles(g)
  {
    hide NewCell;
    forall y | 0 <= y < |g|
      ensures now[y] == Update(g, good)[y]
    {
      forall x | 0 <= x < |g[y]|
        ensures now[y][x] == Update(g, good)[y][x]
      {
        assert At(now, Pixel(x, y)) == At(Update(g, good), Pixel(x, y));
      }
    }
  }

  // ---------------------------------------------------------------------
  // Which cells are filled.
  // ---------------------------------------------------------------------

  function Chebyshev(p: Pixel, q: Pixel): nat {
    if Abs(p.x - q.x) < Abs(p.y - q.y) then Abs(p.y - q.y) else Abs(p.x - q.x)
  }

  /** A genuinely valid cell is at most j steps away, diagonal ones included. */
  ghost predicate GenuineWithin(g: Grid, top: nat, p: Pixel, j: nat) {
    exists q :: InLines(g, q) && At(g, q).mark == top && Chebyshev(p, q) <= j
  }

  /** Before the filling, cells are holes or genuinely valid. */
  ghost predicate Unfilled(g: Grid, maxIter: nat) {
    forall p :: InLines(g, p) ==> At(g, p).mark == 0 || At(g, p).mark == maxIter + 1
  }

  /** The mark of a cell tells how far away the nearest genuinely valid cell is, if it is at most k steps away. */
  ghost predicate MarkOk(g: Grid, maxIter: nat, k: nat, p: Pixel, mark: nat)
    requires k <= maxIter
  {
    && (mark != 0 ==> maxIter + 1 - k <= mark <= maxIter + 1)
    && (forall j :: 0 <= j <= k ==> Marked(g, maxIter, p, mark, j))
  }

  ghost predicate Marked(g: Grid, maxIter: nat, p: Pixel, mark: nat, j: nat) {
    mark >= maxIter + 1 - j <==> GenuineWithin(g, maxIter + 1, p, j)
  }

  lemma {:induction false} SumPositive(g: Grid, p: Pixel, good: nat, k: nat)
    requires k <= 8
    ensures Sum(g, p, good, k).n > 0 <==> exists i :: 0 <= i < k && Good(g, Neighbour(p, i), good)
  {
    if k == 0 {
    } else {
      SumPositive(g, p, good, k - 1);
      if Good(g, Neighbour(p, k - 1), good) {
        assert Sum(g, p, good, k).n > 0;
      }
    }
  }

  /** The neighbour that is one step closer to another cell. */
  lemma Closer(w: nat, h: nat, p: Pixel, q: Pixel) returns (i: nat)
    requires 0 <= p.x < w && 0 <= p.y < h && 0 <= q.x < w && 0 <= q.y < h && p != q
    ensures i < 8
    ensures var r := Neighbour(p, i);
            0 <= r.x < w && 0 <= r.y < h && Chebyshev(r, q) == Chebyshev(p, q) - 1
  {
    if p.x > q.x {
      i := if p.y > q.y then 4 else if p.y == q.y then 0 else 6;
    } else if p.x == q.x {
      i := if p.y > q.y then 2 else 3;
    } else {
      i := if p.y > q.y then 5 else if p.y == q.y then 1 else 7;
    }
  }

  lemma NeighbourNear(g: Grid, top: nat, p: Pixel, i: nat, j: nat)
    requires i < 8 && GenuineWithin(g, top, Neighbour(p, i), j)
    ensures GenuineWithin(g, top, p, j + 1)
  {
    var q :| InLines(g, q) && At(g, q).mark == top && Chebyshev(Neighbour(p, i), q) <= j;
    assert Chebyshev(p, q) <= j + 1;
  }

  lemma NearHasNeighbour(g: Grid, w: nat, h: nat, top: nat, p: Pixel, j: nat) returns (i: nat)
    requires IsGrid(g, w, h) && InLines(g, p)
    requires GenuineWithin(g, top, p, j + 1) && !GenuineWithin(g, top, p, j)
    ensures i < 8 && InLines(g, Neighbour(p, i)) && GenuineWithin(g, top, Neighbour(p, i), j)
  {
    var q :| InLines(g, q) && At(g, q).mark == top && Chebyshev(p, q) <= j + 1;
    i := Closer(w, h, p, q);
  }

  lemma {:induction false} MarksAreDistances(g: Grid, w: nat, h: nat, maxIter: nat, k: nat, p: Pixel)
    requires IsGrid(g, w, h) && Unfilled(g, maxIter) && k <= maxIter && InLines(g, p)
    ensures InLines(Updates(g, maxIter, k), p) && MarkOk(g, maxIter, k, p, At(Updates(g, maxIter, k), p).mark)
    decreases k
  {
    if k == 0 {
      if GenuineWithin(g, maxIter + 1, p, 0) {
        var q :| InLines(g, q) && At(g, q).mark == maxIter + 1 && Chebyshev(p, q) <= 0;
        assert p == q;
      }
      if At(g, p).mark >= maxIter + 1 {
        assert Chebyshev(p, p) == 0;
      }
    } else {
      hide MarkOk, Update;
      forall q | InLines(g, q)
        ensures InLines(Updates(g, maxIter, k - 1), q)
        ensures MarkOk(g, maxIter, k - 1, q, At(Updates(g, maxIter, k - 1), q).mark)
      {
        MarksAreDistances(g, w, h, maxIter, k - 1, q);
      }
      MarkStep(g, w, h, Updates(g, maxIter, k - 1), maxIter, k, p);
    }
  }

  lemma MarkStep(g: Grid, w: nat, h: nat, r: Grid, maxIter: nat, k: nat, p: Pixel)
    requires IsGrid(g, w, h) && IsGrid(r, w, h) && 0 < k <= maxIter && InLines(g, p)
    requires forall q :: InLines(g, q) ==> MarkOk(g, maxIter, k - 1, q, At(r, q).mark)
    ensures MarkOk(g, maxIter, k, p, NewCell(r, p, maxIter - (k - 1)).mark)
  {
    hide Neighbour, Sum;
    var good := maxIter - (k - 1);
    var old_, new_ := At(r, p).mark, NewCell(r, p, good).mark;
    assert MarkOk(g, maxIter, k - 1, p, old_);
    SumPositive(r, p, good, 8);
    assert Marked(g, maxIter, p, old_, k - 1);
    if old_ != 0 {
      WithinMore(g, maxIter + 1, p, k - 1);
    } else if GenuineWithin(g, maxIter + 1, p, k) {
      NearIsGood(g, w, h, r, maxIter, k, p);
    } else if new_ != 0 {
      var i :| 0 <= i < 8 && Good(r, Neighbour(p, i), good);
      GoodIsNear(g, r, maxIter, k, p, i);
    }
    forall j | 0 <= j <= k
      ensures Marked(g, maxIter, p, new_, j)
    {
      if j < k {
        assert Marked(g, maxIter, p, old_, j);
      }
    }
  }

  lemma GoodIsNear(g: Grid, r: Grid, maxIter: nat, k: nat, p: Pixel, i: nat)
    requires 0 < k <= maxIter && i < 8 && Good(r, Neighbour(p, i), maxIter - (k - 1)) && InLines(g, Neighbour(p, i))
    requires MarkOk(g, maxIter, k - 1, Neighbour(p, i), At(r, Neighbour(p, i)).mark)
    ensures GenuineWithin(g, maxIter + 1, p, k)
  {
    assert Marked(g, maxIter, Neighbour(p, i), At(r, Neighbour(p, i)).mark, k - 1);
    NeighbourNear(g, maxIter + 1, p, i, k - 1);
  }

  lemma NearIsGood(g: Grid, w: nat, h: nat, r: Grid, maxIter: nat, k: nat, p: Pixel)
    requires IsGrid(g, w, h) && IsGrid(r, w, h) && 0 < k <= maxIter && InLines(g, p)
    requires forall q :: InLines(g, q) ==> MarkOk(g, maxIter, k - 1, q, At(r, q).mark)
    requires GenuineWithin(g, maxIter + 1, p, k) && !GenuineWithin(g, maxIter + 1, p, k - 1)
    ensures exists i :: 0 <= i < 8 && Good(r, Neighbour(p, i), maxIter - (k - 1))
  {
    var i := NearHasNeighbour(g, w, h, maxIter + 1, p, k - 1);
    var q := Neighbour(p, i);
    assert MarkOk(g, maxIter, k - 1, q, At(r, q).mark);
    assert Marked(g, maxIter, q, At(r, q).mark, k - 1);
    assert Good(r, q, maxIter - (k - 1));
  }

  lemma WithinMore(g: Grid, top: nat, p: Pixel, j: nat)
    ensures GenuineWithin(g, top, p, j) ==> GenuineWithin(g, top, p, j + 1)
  {
  }

  /** After k updates the cells without holes are those at most k steps away from a genuinely valid one. */
  lemma FilledCells(g: Grid, w: nat, h: nat, maxIter: nat, k: nat, p: Pixel)
    requires IsGrid(g, w, h) && Unfilled(g, maxIter) && k <= maxIter && InLines(g, p)
    ensures InLines(Updates(g, maxIter, k), p)
    ensures At(Updates(g, maxIter, k), p).mark != 0 <==> GenuineWithin(g, maxIter + 1, p, k)
  {
    MarksAreDistances(g, w, h, maxIter, k, p);
    assert Marked(g, maxIter, p, At(Updates(g, maxIter, k), p).mark, k);
  }

  // ---------------------------------------------------------------------
  // What cells are filled with.
  // ---------------------------------------------------------------------

  /** All cells but holes are between two corners. */
  ghost predicate Bounded(g: Grid, lo: Cell, hi: Cell) {
    forall p :: InLines(g, p) && At(g, p).mark != 0 ==> Between(At(g, p), lo, hi)
  }

  predicate Between(c: Cell, lo: Cell, hi: Cell) {
    lo.x <= c.x <= hi.x && lo.y <= c.y <= hi.y
  }

  function Multiple(n: nat, x: real): real {
    n as real * x
  }

  lemma {:induction false} SumBounded(g: Grid, p: Pixel, good: nat, k: nat, lo: Cell, hi: Cell)
    requires k <= 8 && Bounded(g, lo, hi)
    ensures var s := Sum(g, p, good, k);
            && Multiple(s.n, lo.x) <= s.x <= Multiple(s.n, hi.x)
            && Multiple(s.n, lo.y) <= s.y <= Multiple(s.n, hi.y)
  {
    if k == 0 {
    } else {
      hide Multiple;
      SumBounded(g, p, good, k - 1, lo, hi);
      var n := Sum(g, p, good, k - 1).n;
      OneMore(n, lo.x);
      OneMore(n, hi.x);
      OneMore(n, lo.y);
      OneMore(n, hi.y);
    }
  }

  lemma OneMore(n: nat, x: real)
    ensures Multiple(n + 1, x) == Multiple(n, x) + x
  {
  }

  lemma Average(n: nat, sum: real, lo: real, hi: real)
    requires n > 0 && Multiple(n, lo) <= sum <= Multiple(n, hi)
    ensures lo <= sum / n as real <= hi
  {
    Divided(n as real, sum, lo);
    Divided(n as real, sum, hi);
  }

  lemma Divided(n: real, sum: real, x: real)
    requires n > 0.0
    ensures n * x <= sum <==> x <= sum / n
    ensures sum <= n * x <==> sum / n <= x
  {
    var a := sum / n;
    assert a * n == sum;
    Monotone(n, x, a);
    Monotone(n, a, x);
  }

  lemma Monotone(n: real, x: real, y: real)
    requires n > 0.0
    ensures n * x <= n * y <==> x <= y
  {
    if x > y {
      assert n * (x - y) > 0.0;
    } else {
      assert n * (y - x) >= 0.0;
    }
  }

  lemma UpdateBounded(g: Grid, good: nat, lo: Cell, hi: Cell)
    requires Bounded(g, lo, hi)
    ensures Bounded(Update(g, good), lo, hi)
  {
    forall p | InLines(g, p) && NewCell(g, p, good).mark != 0
      ensures Between(NewCell(g, p, good), lo, hi)
    {
      hide Sum, Multiple;
      var s := Sum(g, p, good, 8);
      SumBounded(g, p, good, 8, lo, hi);
      if At(g, p).mark == 0 {
        Average(s.n, s.x, lo.x, hi.x);
        Average(s.n, s.y, lo.y, hi.y);
      }
    }
  }

  /** What holes are filled with stays between the extremes of the genuinely valid cells. */
  lemma {:induction false} FilledBounded(g: Grid, maxIter: nat, k: nat, lo: Cell, hi: Cell)
    requires k <= maxIter && Bounded(g, lo, hi)
    ensures Bounded(Updates(g, maxIter, k), lo, hi)
  {
    if k == 0 {
    } else {
      FilledBounded(g, maxIter, k - 1, lo, hi);
      UpdateBounded(Updates(g, maxIter, k - 1), maxIter - (k - 1), lo, hi);
    }
  }

  /** Valid cells, and holes that are not filled, are left as they were. */
  lemma {:induction false} LeftAlone(g: Grid, maxIter: nat, k: nat, p: Pixel)
    requires k <= maxIter && InLines(g, p)
    ensures InLines(Updates(g, maxIter, k), p)
    ensures At(g, p).mark != 0 || At(Updates(g, maxIter, k), p).mark == 0 ==> At(Updates(g, maxIter, k), p) == At(g, p)
  {
    if k == 0 {
    } else {
      hide Sum;
      LeftAlone(g, maxIter, k - 1, p);
    }
  }

  // ---------------------------------------------------------------------
  // The average of which cells.
  // ---------------------------------------------------------------------

  /** The sum of a value over a set of cells. */
  ghost function SumOver(cells: set<Pixel>, f: Pixel -> real): real {
    if cells == {} then 0.0 else
    var q :| q in cells;
    f(q) + SumOver(cells - {q}, f)
  }

  /** It does not matter which cell is taken first. */
  lemma {:induction false} SumOverWith(cells: set<Pixel>, f: Pixel -> real, q: Pixel)
    requires q in cells
    ensures SumOver(cells, f) == f(q) + SumOver(cells - {q}, f)
  {
    var r :| r in cells && SumOver(cells, f) == f(r) + SumOver(cells - {r}, f);
    if r != q {
      SumOverWith(cells - {r}, f, q);
      SumOverWith(cells - {q}, f, r);
      assert cells - {r} - {q} == cells - {q} - {r};
    }
  }

  /** As many times the location of c as there are cells is the sum of their locations. */
  ghost predicate IsAverage(g: Grid, cells: set<Pixel>, c: Cell) {
    && |cells| > 0
    && |cells| as real * c.x == SumOver(cells, XOf(g))
    && |cells| as real * c.y == SumOver(cells, YOf(g))
  }

  /** The cells of the map around p that are at most j steps away from a genuinely valid one. */
  ghost function Contributors(g: Grid, top: nat, p: Pixel, j: nat): set<Pixel> {
    set q | q in Pixels(g) && Chebyshev(p, q) == 1 && GenuineWithin(g, top, q, j)
  }

  /** The good ones among the first k neighbours. */
  ghost function GoodOnes(g: Grid, p: Pixel, good: nat, k: nat): set<Pixel>
    requires k <= 8
  {
    set q | q in Pixels(g) && At(g, q).mark > good && (exists i :: 0 <= i < k && q == Neighbour(p, i))
  }

  ghost function XOf(g: Grid): Pixel -> real {
    q => if InLines(g, q) then At(g, q).x else 0.0
  }

  ghost function YOf(g: Grid): Pixel -> real {
    q => if InLines(g, q) then At(g, q).y else 0.0
  }

  lemma {:induction false} SumIsOverSet(g: Grid, p: Pixel, good: nat, k: nat)
    requires k <= 8
    ensures var s, cells := Sum(g, p, good, k), GoodOnes(g, p, good, k);
            s.n == |cells| && s.x == SumOver(cells, XOf(g)) && s.y == SumOver(cells, YOf(g))
  {
    if k == 0 {
      assert GoodOnes(g, p, good, 0) == {};
    } else {
      SumIsOverSet(g, p, good, k - 1);
      GoodOnesNext(g, p, good, k - 1);
      hide Neighbour, GoodOnes, SumOver;
      var q := Neighbour(p, k - 1);
      if Good(g, q, good) {
        SumOverWith(GoodOnes(g, p, good, k), XOf(g), q);
        SumOverWith(GoodOnes(g, p, good, k), YOf(g), q);
      }
    }
  }

  lemma GoodOnesNext(g: Grid, p: Pixel, good: nat, k: nat)
    requires k < 8
    ensures var cells, before, q := GoodOnes(g, p, good, k + 1), GoodOnes(g, p, good, k), Neighbour(p, k);
            if Good(g, q, good) then q in cells && cells - {q} == before && |cells| == |before| + 1
            else cells == before
  {
    var cells, before, q := GoodOnes(g, p, good, k + 1), GoodOnes(g, p, good, k), Neighbour(p, k);
    NeighboursDiffer(p, k);
    hide Neighbour;
    forall r
      ensures r in cells <==> r in before || (r == q && Good(g, q, good))
    {
      if r in cells {
        var i :| 0 <= i < k + 1 && r == Neighbour(p, i);
        assert i < k || r == q;
      }
    }
    assert q !in before;
    if Good(g, q, good) {
      assert cells == before + {q};
    } else {
      assert cells == before;
    }
  }

  lemma NeighboursDiffer(p: Pixel, k: nat)
    requires k < 8
    ensures forall i :: 0 <= i < k ==> Neighbour(p, i) != Neighbour(p, k)
  {
  }

  lemma NeighboursAreAround(p: Pixel, q: Pixel)
    ensures Chebyshev(p, q) == 1 <==> exists i :: 0 <= i < 8 && q == Neighbour(p, i)
  {
    if Chebyshev(p, q) == 1 {
      var i := if q.y == p.y then (if q.x < p.x then 0 else 1) else if q.x == p.x then (if q.y < p.y then 2 else 3)
               else if q.y < p.y then (if q.x < p.x then 4 else 5) else (if q.x < p.x then 6 else 7);
      assert q == Neighbour(p, i);
    }
  }

  /**
   * A hole that update k fills becomes the average of all cells around it that are at most k - 1 steps away from a
   * genuinely valid one, as they were before that update.
   */
  lemma FilledIsAverage(g: Grid, w: nat, h: nat, maxIter: nat, k: nat, p: Pixel)
    requires IsGrid(g, w, h) && Unfilled(g, maxIter) && 0 < k <= maxIter && InLines(g, p)
    requires InLines(Updates(g, maxIter, k - 1), p) && At(Updates(g, maxIter, k - 1), p).mark == 0
    requires InLines(Updates(g, maxIter, k), p) && At(Updates(g, maxIter, k), p).mark != 0
    ensures IsAverage(Updates(g, maxIter, k - 1), Contributors(g, maxIter + 1, p, k - 1), At(Updates(g, maxIter, k), p))
  {
    var before, good := Updates(g, maxIter, k - 1), maxIter - (k - 1);
    GoodAreContributors(g, w, h, maxIter, k, p);
    UpdatesNext(g, maxIter, k - 1);
    hide IsAverage;
    NewIsAverage(before, p, good);
  }

  lemma NewIsAverage(g: Grid, p: Pixel, good: nat)
    requires InLines(g, p) && At(g, p).mark == 0 && NewCell(g, p, good).mark != 0
    ensures IsAverage(g, GoodOnes(g, p, good, 8), NewCell(g, p, good))
  {
    SumIsOverSet(g, p, good, 8);
    hide Sum, SumOver, GoodOnes;
    var s := Sum(g, p, good, 8);
    TimesQuotient(s.n, s.x);
    TimesQuotient(s.n, s.y);
  }

  lemma TimesQuotient(n: nat, x: real)
    requires n > 0
    ensures n as real * (x / n as real) == x
  {
  }

  lemma GoodAreContributors(g: Grid, w: nat, h: nat, maxIter: nat, k: nat, p: Pixel)
    requires IsGrid(g, w, h) && Unfilled(g, maxIter) && 0 < k <= maxIter && InLines(g, p)
    ensures GoodOnes(Updates(g, maxIter, k - 1), p, maxIter - (k - 1), 8) == Contributors(g, maxIter + 1, p, k - 1)
  {
    var before, good := Updates(g, maxIter, k - 1), maxIter - (k - 1);
    hide Neighbour, Updates, GenuineWithin, Chebyshev;
    forall q
      ensures q in GoodOnes(before, p, good, 8) <==> q in Contributors(g, maxIter + 1, p, k - 1)
    {
      NeighboursAreAround(p, q);
      if InLines(g, q) {
        MarksAreDistances(g, w, h, maxIter, k - 1, q);
        assert Marked(g, maxIter, q, At(before, q).mark, k - 1);
      }
    }
  }
}

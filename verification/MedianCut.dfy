/** GDALComputeMedianCutPCT: boxes of colour space are split at the median until
    there are enough of them or every box is a single colour. */
module MedianCut {
  import opened Numbers

  const GMC_B_LEN: int := 32

  /** A colour, quantised to five bits a channel. */
  datatype Cell = Cell(r: int, g: int, b: int)

  datatype Box = Box(rmin: int, rmax: int, gmin: int, gmax: int, bmin: int, bmax: int, total: int)

  datatype Axis = Red | Green | Blue

  function Coord(axis: Axis, c: Cell): int {
    match axis
    case Red => c.r
    case Green => c.g
    case Blue => c.b
  }

  function Lo(axis: Axis, box: Box): int {
    match axis
    case Red => box.rmin
    case Green => box.gmin
    case Blue => box.bmin
  }

  function Hi(axis: Axis, box: Box): int {
    match axis
    case Red => box.rmax
    case Green => box.gmax
    case Blue => box.bmax
  }

  function SetLo(axis: Axis, box: Box, v: int): Box {
    match axis
    case Red => box.(rmin := v)
    case Green => box.(gmin := v)
    case Blue => box.(bmin := v)
  }

  function SetHi(axis: Axis, box: Box, v: int): Box {
    match axis
    case Red => box.(rmax := v)
    case Green => box.(gmax := v)
    case Blue => box.(bmax := v)
  }

  predicate InBox(box: Box, c: Cell) {
    box.rmin <= c.r <= box.rmax && box.gmin <= c.g <= box.gmax && box.bmin <= c.b <= box.bmax
  }

  predicate InRange(box: Box) {
    0 <= box.rmin <= box.rmax < GMC_B_LEN && 0 <= box.gmin <= box.gmax < GMC_B_LEN &&
        0 <= box.bmin <= box.bmax < GMC_B_LEN
  }

  // ---------------------------------------------------------------------
  // Counting pixels.
  // ---------------------------------------------------------------------

  /** How many of the pixels px have a colour in a region. */
  ghost function CountWhere(px: seq<Cell>, region: Cell -> bool): nat {
    if px == [] then 0 else CountWhere(px[..|px| - 1], region) + if region(px[|px| - 1]) then 1 else 0
  }

  /** Counts add up over disjoint regions. */
  lemma {:induction false} CountSplit(px: seq<Cell>, whole: Cell -> bool, a: Cell -> bool, b: Cell -> bool)
    requires forall c :: c in px ==> (whole(c) <==> a(c) || b(c)) && !(a(c) && b(c))
    ensures CountWhere(px, whole) == CountWhere(px, a) + CountWhere(px, b)
  {
    if px != [] {
      CountSplit(px[..|px| - 1], whole, a, b);
    }
  }

  lemma {:induction false} CountSame(px: seq<Cell>, a: Cell -> bool, b: Cell -> bool)
    requires forall c :: c in px ==> (a(c) <==> b(c))
    ensures CountWhere(px, a) == CountWhere(px, b)
  {
    if px != [] {
      CountSame(px[..|px| - 1], a, b);
    }
  }

  lemma {:induction false} CountPositive(px: seq<Cell>, region: Cell -> bool)
    ensures CountWhere(px, region) > 0 <==> exists c :: c in px && region(c)
  {
    if px != [] {
      CountPositive(px[..|px| - 1], region);
      assert px == px[..|px| - 1] + [px[|px| - 1]];
    }
  }

  lemma {:induction false} CountAll(px: seq<Cell>, region: Cell -> bool)
    requires forall c :: c in px ==> region(c)
    ensures CountWhere(px, region) == |px|
  {
    if px != [] {
      CountAll(px[..|px| - 1], region);
    }
  }

  ghost function CountBox(px: seq<Cell>, box: Box): nat {
    CountWhere(px, (c: Cell) => InBox(box, c))
  }

  // ---------------------------------------------------------------------
  // What the boxes stand for.
  // ---------------------------------------------------------------------

  /** Some pixel lies on either face of the box along the axis. */
  ghost predicate TightAlong(px: seq<Cell>, box: Box, axis: Axis) {
    && (exists c :: c in px && InBox(box, c) && Coord(axis, c) == Lo(axis, box))
    && (exists c :: c in px && InBox(box, c) && Coord(axis, c) == Hi(axis, box))
  }

  /** A box as the algorithm keeps it: its total counts its pixels, and every face
      touches one. */
  ghost predicate GoodBox(px: seq<Cell>, box: Box) {
    && InRange(box)
    && box.total == CountBox(px, box)
    && box.total > 0
    && forall axis :: TightAlong(px, box, axis)
  }

  ghost predicate Disjoint(px: seq<Cell>, a: Box, b: Box) {
    forall c :: c in px ==> !(InBox(a, c) && InBox(b, c))
  }

  /** Every pixel lies in exactly one box. */
  ghost predicate Partition(px: seq<Cell>, boxes: seq<Box>) {
    && (forall i :: 0 <= i < |boxes| ==> GoodBox(px, boxes[i]))
    && (forall i, j :: 0 <= i < j < |boxes| ==> Disjoint(px, boxes[i], boxes[j]))
    && (forall c :: c in px ==> exists i :: 0 <= i < |boxes| && InBox(boxes[i], c))
  }

  predicate Single(box: Box) {
    box.rmax <= box.rmin && box.gmax <= box.gmin && box.bmax <= box.bmin
  }

  ghost function Colours(px: seq<Cell>): set<Cell> {
    set c | c in px
  }

  ghost function ColoursIn(px: seq<Cell>, boxes: seq<Box>): set<Cell> {
    set c | c in px && exists i :: 0 <= i < |boxes| && InBox(boxes[i], c)
  }

  /** How many boxes could still be split. */
  ghost function Wide(boxes: seq<Box>): nat {
    if boxes == [] then 0 else Wide(boxes[..|boxes| - 1]) + if Single(boxes[|boxes| - 1]) then 0 else 1
  }

  lemma {:induction false} NoneWide(boxes: seq<Box>)
    ensures Wide(boxes) == 0 <==> forall i :: 0 <= i < |boxes| ==> Single(boxes[i])
  {
    if boxes != [] {
      NoneWide(boxes[..|boxes| - 1]);
    }
  }

  /** A tight box holds a colour, and two different ones if it can still be split. */
  lemma ColoursOfBox(px: seq<Cell>, box: Box) returns (c: Cell, d: Cell)
    requires GoodBox(px, box)
    ensures c in px && InBox(box, c) && d in px && InBox(box, d) && (c != d <==> !Single(box))
  {
    var axis := if box.rmax > box.rmin then Red else if box.gmax > box.gmin then Green else Blue;
    assert TightAlong(px, box, axis);
    c :| c in px && InBox(box, c) && Coord(axis, c) == Lo(axis, box);
    d :| d in px && InBox(box, d) && Coord(axis, d) == Hi(axis, box);
  }

  lemma NewColour(px: seq<Cell>, boxes: seq<Box>, c: Cell)
    requires |boxes| > 0 && forall i, j :: 0 <= i < j < |boxes| ==> Disjoint(px, boxes[i], boxes[j])
    requires c in px && InBox(boxes[|boxes| - 1], c)
    ensures var front := boxes[..|boxes| - 1];
            && c !in ColoursIn(px, front) && c in ColoursIn(px, boxes) && ColoursIn(px, front) <= ColoursIn(px, boxes)
  {
    var n := |boxes| - 1;
    forall i | 0 <= i < n
      ensures !InBox(boxes[i], c)
    {
      assert Disjoint(px, boxes[i], boxes[n]);
    }
    forall x | x in ColoursIn(px, boxes[..n])
      ensures x in ColoursIn(px, boxes)
    {
      var i :| 0 <= i < n && InBox(boxes[..n][i], x);
      assert InBox(boxes[i], x);
    }
  }

  /** There are never more boxes than colours, and fewer if a box can still be split. */
  lemma {:induction false} BoxesAtMostColours(px: seq<Cell>, boxes: seq<Box>)
    requires forall i :: 0 <= i < |boxes| ==> GoodBox(px, boxes[i])
    requires forall i, j :: 0 <= i < j < |boxes| ==> Disjoint(px, boxes[i], boxes[j])
    ensures |boxes| + Wide(boxes) <= |ColoursIn(px, boxes)| <= |Colours(px)|
  {
    SubsetSize(ColoursIn(px, boxes), Colours(px));
    if boxes != [] {
      var n := |boxes| - 1;
      var front := boxes[..n];
      BoxesAtMostColours(px, front);
      var c, d := ColoursOfBox(px, boxes[n]);
      NewColour(px, boxes, c);
      NewColour(px, boxes, d);
      assert |ColoursIn(px, front) + {c, d}| == |ColoursIn(px, front)| + |{c, d}|;
      SubsetSize(ColoursIn(px, front) + {c, d}, ColoursIn(px, boxes));
      assert |{c, d}| == if c == d then 1 else 2;
    }
  }

  lemma {:induction false} SubsetSize<T>(a: set<T>, b: set<T>)
    requires a <= b
    ensures |a| <= |b|
  {
    if a != {} {
      var x :| x in a;
      SubsetSize(a - {x}, b - {x});
    }
  }

  /** Boxes of a single colour each hold at most as many colours as there are boxes. */
  lemma {:induction false} SingleBoxesColours(px: seq<Cell>, boxes: seq<Box>)
    requires forall i :: 0 <= i < |boxes| ==> Single(boxes[i])
    ensures |ColoursIn(px, boxes)| <= |boxes|
  {
    if boxes == [] {
      assert ColoursIn(px, boxes) == {};
    } else {
      var n := |boxes| - 1;
      var front := boxes[..n];
      SingleBoxesColours(px, front);
      var last := Cell(boxes[n].rmin, boxes[n].gmin, boxes[n].bmin);
      assert ColoursIn(px, boxes) <= ColoursIn(px, front) + {last} by {
        forall d | d in ColoursIn(px, boxes)
          ensures d in ColoursIn(px, front) || d == last
        {
          var i :| 0 <= i < |boxes| && InBox(boxes[i], d);
          if i < n {
            assert InBox(front[i], d);
          }
        }
      }
      SubsetSize(ColoursIn(px, boxes), ColoursIn(px, front) + {last});
    }
  }

  /** When the main loop stops, the boxes are as many as they can be; if the colours
      do not outnumber them, every colour has a box of its own. */
  lemma FinalCount(px: seq<Cell>, boxes: seq<Box>, numColors: int)
    requires Partition(px, boxes) && |boxes| <= numColors
    requires |boxes| == numColors || forall i :: 0 <= i < |boxes| ==> Single(boxes[i])
    ensures |boxes| == Min(numColors, |Colours(px)|)
    ensures |Colours(px)| <= numColors ==> forall i :: 0 <= i < |boxes| ==> Single(boxes[i])
  {
    BoxesAtMostColours(px, boxes);
    assert ColoursIn(px, boxes) == Colours(px);
    NoneWide(boxes);
    if |boxes| != numColors {
      SingleBoxesColours(px, boxes);
    }
  }

  /** Totals add up to the number of pixels. */
  ghost function TotalOf(boxes: seq<Box>): int {
    if boxes == [] then 0 else TotalOf(boxes[..|boxes| - 1]) + boxes[|boxes| - 1].total
  }

  ghost predicate InFirst(boxes: seq<Box>, n: nat, c: Cell) {
    exists i :: 0 <= i < n && i < |boxes| && InBox(boxes[i], c)
  }

  lemma {:induction false} TotalsOfPrefix(px: seq<Cell>, boxes: seq<Box>, n: nat)
    requires Partition(px, boxes) && n <= |boxes|
    ensures TotalOf(boxes[..n]) == CountWhere(px, (c: Cell) => InFirst(boxes, n, c))
  {
    if n == 0 {
      CountPositive(px, (c: Cell) => InFirst(boxes, n, c));
    } else {
      TotalsOfPrefix(px, boxes, n - 1);
      assert boxes[..n][..n - 1] == boxes[..n - 1];
      var box := boxes[n - 1];
      forall c | c in px
        ensures InFirst(boxes, n, c) <==> InFirst(boxes, n - 1, c) || InBox(box, c)
        ensures !(InFirst(boxes, n - 1, c) && InBox(box, c))
      {
        if InFirst(boxes, n - 1, c) {
          var i :| 0 <= i < n - 1 && InBox(boxes[i], c);
          assert Disjoint(px, boxes[i], box);
        }
      }
      CountSplit(px, (c: Cell) => InFirst(boxes, n, c), (c: Cell) => InFirst(boxes, n - 1, c),
                 (c: Cell) => InBox(box, c));
      assert GoodBox(px, box);
    }
  }

  lemma TotalsAddUp(px: seq<Cell>, boxes: seq<Box>)
    requires Partition(px, boxes)
    ensures TotalOf(boxes) == |px|
  {
    var n := |boxes|;
    TotalsOfPrefix(px, boxes, n);
    assert boxes[..n] == boxes;
    CountAll(px, (c: Cell) => InFirst(boxes, n, c));
  }

  // ---------------------------------------------------------------------
  // Splitting a box, on values.
  // ---------------------------------------------------------------------

  predicate Longest(axis: Axis, box: Box) {
    forall other :: Hi(axis, box) - Lo(axis, box) >= Hi(other, box) - Lo(other, box)
  }

  /** The part of the box before and from the cut. */
  function Lower(box: Box, axis: Axis, cut: int, total: int): Box {
    SetHi(axis, box, cut - 1).(total := total)
  }

  function Upper(box: Box, axis: Axis, cut: int, total: int): Box {
    SetLo(axis, box, cut).(total := total)
  }

  /** A box with the same pixels whose faces are tight. */
  ghost predicate ShrunkTo(px: seq<Cell>, box: Box, small: Box) {
    && (forall c :: InBox(small, c) ==> InBox(box, c))
    && (forall c :: c in px && InBox(box, c) ==> InBox(small, c))
    && InRange(small) && small.total == box.total
  }

  lemma ReplacedGood(px: seq<Cell>, boxes: seq<Box>, k: nat, low: Box, high: Box)
    requires Partition(px, boxes) && k < |boxes| && GoodBox(px, low) && GoodBox(px, high)
    ensures var after := [low] + boxes[k := high]; forall i :: 0 <= i < |after| ==> GoodBox(px, after[i])
  {
    hide GoodBox;
  }

  /** Where a box lies that replaces another one, or is another one. */
  lemma ReplacedInside(boxes: seq<Box>, k: nat, low: Box, high: Box, i: nat)
    requires k < |boxes| && i <= |boxes|
    requires forall c :: InBox(low, c) || InBox(high, c) ==> InBox(boxes[k], c)
    ensures var after := [low] + boxes[k := high];
            forall c :: InBox(after[i], c) ==> InBox(boxes[if i == 0 then k else i - 1], c)
  {
    hide InBox;
  }

  lemma DisjointInside(px: seq<Cell>, a: Box, b: Box, a': Box, b': Box)
    requires Disjoint(px, a, b) || Disjoint(px, b, a)
    requires (forall c :: InBox(a', c) ==> InBox(a, c)) && (forall c :: InBox(b', c) ==> InBox(b, c))
    ensures Disjoint(px, a', b')
  {
    hide InBox;
  }

  lemma ReplacedDisjoint(px: seq<Cell>, boxes: seq<Box>, k: nat, low: Box, high: Box)
    requires Partition(px, boxes) && k < |boxes| && Disjoint(px, low, high)
    requires forall c :: InBox(low, c) || InBox(high, c) ==> InBox(boxes[k], c)
    ensures var after := [low] + boxes[k := high];
            forall i, j :: 0 <= i < j < |after| ==> Disjoint(px, after[i], after[j])
  {
    hide InBox, GoodBox, Disjoint;
    var after := [low] + boxes[k := high];
    forall i, j | 0 <= i < j < |after|
      ensures Disjoint(px, after[i], after[j])
    {
      if i > 0 || j - 1 != k {
        ReplacedInside(boxes, k, low, high, i);
        ReplacedInside(boxes, k, low, high, j);
        DisjointInside(px, boxes[if i == 0 then k else i - 1], boxes[j - 1], after[i], after[j]);
      }
    }
  }

  lemma ReplacedCovers(px: seq<Cell>, boxes: seq<Box>, k: nat, low: Box, high: Box, c: Cell)
    requires Partition(px, boxes) && k < |boxes| && c in px
    requires InBox(boxes[k], c) ==> InBox(low, c) || InBox(high, c)
    ensures var after := [low] + boxes[k := high]; exists i :: 0 <= i < |after| && InBox(after[i], c)
  {
    hide InBox, GoodBox, Disjoint;
    var after := [low] + boxes[k := high];
    var i :| 0 <= i < |boxes| && InBox(boxes[i], c);
    if i != k {
      assert after[i + 1] == boxes[i];
    } else if InBox(low, c) {
      assert after[0] == low;
    } else {
      assert after[k + 1] == high;
    }
  }

  /** What the halves of a box hold. */
  lemma HalvesOf(px: seq<Cell>, box: Box, axis: Axis, cut: int, sum1: int, sum2: int, low: Box, high: Box)
    requires ShrunkTo(px, Lower(box, axis, cut, sum1), low) && ShrunkTo(px, Upper(box, axis, cut, sum2), high)
    requires Lo(axis, box) < cut <= Hi(axis, box)
    ensures Disjoint(px, low, high)
    ensures forall c :: InBox(low, c) || InBox(high, c) ==> InBox(box, c)
    ensures forall c :: c in px && InBox(box, c) ==> InBox(low, c) || InBox(high, c)
  {
    assert forall c ::
        InBox(box, c) <==> InBox(Lower(box, axis, cut, sum1), c) || InBox(Upper(box, axis, cut, sum2), c);
  }

  /** Replacing a box by its two shrunken halves keeps the partition. */
  lemma SplitKeepsPartition(px: seq<Cell>, boxes: seq<Box>, k: nat, axis: Axis, cut: int, sum1: int, sum2: int,
                            low: Box, high: Box)
    requires Partition(px, boxes) && k < |boxes| && Lo(axis, boxes[k]) < cut <= Hi(axis, boxes[k])
    requires GoodBox(px, low) && GoodBox(px, high)
    requires ShrunkTo(px, Lower(boxes[k], axis, cut, sum1), low) && ShrunkTo(px, Upper(boxes[k], axis, cut, sum2), high)
    ensures Partition(px, [low] + boxes[k := high])
  {
    HalvesOf(px, boxes[k], axis, cut, sum1, sum2, low, high);
    hide InBox, GoodBox, Disjoint, ShrunkTo;
    ReplacedGood(px, boxes, k, low, high);
    ReplacedDisjoint(px, boxes, k, low, high);
    var after := [low] + boxes[k := high];
    forall c | c in px
      ensures exists i :: 0 <= i < |after| && InBox(after[i], c)
    {
      ReplacedCovers(px, boxes, k, low, high, c);
    }
  }

  /** Both halves hold pixels: the cut lies behind the first slab of the tight box and
      not behind the last one. */
  lemma HalvesPositive(px: seq<Cell>, box: Box, axis: Axis, cut: int)
    requires GoodBox(px, box) && Lo(axis, box) < cut <= Hi(axis, box)
    ensures CountBox(px, Lower(box, axis, cut, 0)) > 0 && CountBox(px, Upper(box, axis, cut, 0)) > 0
    ensures CountBox(px, Lower(box, axis, cut, 0)) + CountBox(px, Upper(box, axis, cut, 0)) == box.total
  {
    var low, high := Lower(box, axis, cut, 0), Upper(box, axis, cut, 0);
    assert TightAlong(px, box, axis);
    var c :| c in px && InBox(box, c) && Coord(axis, c) == Lo(axis, box);
    var d :| d in px && InBox(box, d) && Coord(axis, d) == Hi(axis, box);
    assert InBox(low, c) && InBox(high, d);
    CountPositive(px, (x: Cell) => InBox(low, x));
    CountPositive(px, (x: Cell) => InBox(high, x));
    CountSplit(px, (x: Cell) => InBox(box, x), (x: Cell) => InBox(low, x), (x: Cell) => InBox(high, x));
  }

  /** A longest axis, the first of them. */
  ghost predicate FirstLongest(axis: Axis, box: Box) {
    && Longest(axis, box)
    && (axis == Green ==> box.rmax - box.rmin < box.gmax - box.gmin)
    && (axis == Blue ==> box.rmax - box.rmin < box.bmax - box.bmin && box.gmax - box.gmin < box.bmax - box.bmin)
  }

  /** The pixels of the box before coordinate v are fewer than half of its pixels. */
  ghost predicate LessThanHalf(px: seq<Cell>, box: Box, axis: Axis, v: int) {
    CountWhere(px, (c: Cell) => InBox(box, c) && Coord(axis, c) < v) < CountBox(px, box) / 2
  }

  /** The least cut behind the first slab of the box such that with its own slab half of the pixels are reached. */
  ghost predicate IsMedian(px: seq<Cell>, box: Box, axis: Axis, cut: int) {
    && Lo(axis, box) < cut <= Hi(axis, box)
    && !LessThanHalf(px, box, axis, cut + 1) && (cut > Lo(axis, box) + 1 ==> LessThanHalf(px, box, axis, cut))
  }

  /** Tight boxes around the pixels before the median of a longest axis, and around the others. */
  ghost predicate CutInTwo(px: seq<Cell>, box: Box, low: Box, high: Box) {
    GoodBox(px, low) && GoodBox(px, high) && exists axis, cut :: CutAt(px, box, axis, cut, low, high)
  }

  ghost predicate CutAt(px: seq<Cell>, box: Box, axis: Axis, cut: int, low: Box, high: Box) {
    && FirstLongest(axis, box) && IsMedian(px, box, axis, cut)
    && (forall c :: c in px ==> (InBox(low, c) <==> InBox(box, c) && Coord(axis, c) < cut))
    && (forall c :: c in px ==> (InBox(high, c) <==> InBox(box, c) && Coord(axis, c) >= cut))
  }

  /** Box k is the first that has the greatest total among those of more than one colour. */
  ghost predicate FirstLargest(boxes: seq<Box>, k: nat) {
    && k < |boxes| && !Single(boxes[k])
    && (forall i :: 0 <= i < |boxes| && !Single(boxes[i]) ==> boxes[i].total <= boxes[k].total)
    && (forall i :: 0 <= i < k && !Single(boxes[i]) ==> boxes[i].total < boxes[k].total)
  }

  /** The first largest box is cut in two: the lower part comes first, the upper one stays in its place. */
  ghost predicate Step(px: seq<Cell>, boxes: seq<Box>, after: seq<Box>) {
    && |after| == |boxes| + 1
    && exists k: nat :: FirstLargest(boxes, k) && ReplacedAt(px, boxes, k, after)
  }

  ghost predicate ReplacedAt(px: seq<Cell>, boxes: seq<Box>, k: nat, after: seq<Box>)
    requires k < |boxes| && |after| == |boxes| + 1
  {
    CutInTwo(px, boxes[k], after[0], after[k + 1]) && after[1..] == boxes[k := after[k + 1]]
  }

  /** All pixels in one tight box, and then one such step after the other. */
  ghost predicate History(px: seq<Cell>, history: seq<seq<Box>>) {
    && |history| > 0 && |history[0]| == 1 && Partition(px, history[0])
    && forall i {:trigger history[i]} :: 0 <= i < |history| - 1 ==> Step(px, history[i], history[i + 1])
  }

  lemma NextStep(px: seq<Cell>, history: seq<seq<Box>>, k: nat, after: seq<Box>)
    requires History(px, history) && FirstLargest(history[|history| - 1], k)
    requires |after| == |history[|history| - 1]| + 1 && ReplacedAt(px, history[|history| - 1], k, after)
    ensures History(px, history + [after])
  {
    hide FirstLargest, ReplacedAt, Partition;
  }

  /** A shrunken half has the pixels on its side of the cut. */
  lemma HalvesAreCut(px: seq<Cell>, box: Box, axis: Axis, cut: int, sum1: int, sum2: int, low: Box, high: Box)
    requires FirstLongest(axis, box) && IsMedian(px, box, axis, cut) && GoodBox(px, low) && GoodBox(px, high)
    requires ShrunkTo(px, Lower(box, axis, cut, sum1), low) && ShrunkTo(px, Upper(box, axis, cut, sum2), high)
    ensures CutInTwo(px, box, low, high)
  {
    assert CutAt(px, box, axis, cut, low, high) by {
      hide IsMedian, FirstLongest;
    }
  }

  // ---------------------------------------------------------------------
  // Scanning the histogram.
  // ---------------------------------------------------------------------

  predicate InCube(c: Cell) {
    0 <= c.r < GMC_B_LEN && 0 <= c.g < GMC_B_LEN && 0 <= c.b < GMC_B_LEN
  }

  /** histogram counts the pixels px by colour. */
  ghost predicate IsHistogram(histogram: array3<int>, px: seq<Cell>)
    reads histogram
  {
    && histogram.Length0 == histogram.Length1 == histogram.Length2 == GMC_B_LEN
    && (forall c :: c in px ==> InCube(c))
    && forall c :: InCube(c) ==> histogram[c.r, c.g, c.b] == CountWhere(px, (x: Cell) => x == c)
  }

  /** The other two axes, in the order the loops of each case run over them. */
  function Outer(axis: Axis): Axis { if axis == Red then Green else Red }

  function Inner(axis: Axis): Axis { if axis == Blue then Green else Blue }

  function SlabCell(axis: Axis, k: int, u: int, v: int): (c: Cell)
    ensures Coord(axis, c) == k && Coord(Outer(axis), c) == u && Coord(Inner(axis), c) == v
  {
    match axis
    case Red => Cell(k, u, v)
    case Green => Cell(u, k, v)
    case Blue => Cell(u, v, k)
  }

  ghost predicate InSlab(box: Box, axis: Axis, k: int, c: Cell) {
    InBox(box, c) && Coord(axis, c) == k
  }

  /** The cells of slab k that come before (u, v). */
  ghost predicate SlabBefore(box: Box, axis: Axis, k: int, u: int, v: int, c: Cell) {
    && InSlab(box, axis, k, c)
    && (Coord(Outer(axis), c) < u || (Coord(Outer(axis), c) == u && Coord(Inner(axis), c) < v))
  }

  /** One step of the inner loop adds one cell. */
  lemma SlabStep(px: seq<Cell>, box: Box, axis: Axis, k: int, u: int, v: int)
    requires Lo(axis, box) <= k <= Hi(axis, box)
    requires Lo(Outer(axis), box) <= u <= Hi(Outer(axis), box) && Lo(Inner(axis), box) <= v <= Hi(Inner(axis), box)
    ensures CountWhere(px, (c: Cell) => SlabBefore(box, axis, k, u, v + 1, c))
         == CountWhere(px, (c: Cell) => SlabBefore(box, axis, k, u, v, c)) +
             CountWhere(px, (c: Cell) => c == SlabCell(axis, k, u, v))
  {
    CountSplit(px, (c: Cell) => SlabBefore(box, axis, k, u, v + 1, c), (c: Cell) => SlabBefore(box, axis, k, u, v, c),
               (c: Cell) => c == SlabCell(axis, k, u, v));
  }

  lemma SlabRow(px: seq<Cell>, box: Box, axis: Axis, k: int, u: int)
    ensures CountWhere(px, (c: Cell) => SlabBefore(box, axis, k, u, Hi(Inner(axis), box) + 1, c))
         == CountWhere(px, (c: Cell) => SlabBefore(box, axis, k, u + 1, Lo(Inner(axis), box), c))
  {
    CountSame(px, (c: Cell) => SlabBefore(box, axis, k, u, Hi(Inner(axis), box) + 1, c),
              (c: Cell) => SlabBefore(box, axis, k, u + 1, Lo(Inner(axis), box), c));
  }

  /** The histogram entry of a cell of a slab. */
  lemma SlabEntry(histogram: array3<int>, box: Box, axis: Axis, k: int, u: int, v: int, px: seq<Cell>)
    requires IsHistogram(histogram, px) && InRange(box) && Lo(axis, box) <= k <= Hi(axis, box)
    requires Lo(Outer(axis), box) <= u <= Hi(Outer(axis), box) && Lo(Inner(axis), box) <= v <= Hi(Inner(axis), box)
    ensures var cell := SlabCell(axis, k, u, v);
            && InCube(cell)
            && histogram[cell.r, cell.g, cell.b] == CountWhere(px, (c: Cell) => c == SlabCell(axis, k, u, v))
  {
    var cell := SlabCell(axis, k, u, v);
    CountSame(px, (c: Cell) => c == SlabCell(axis, k, u, v), (c: Cell) => c == cell);
  }

  /** Adds the pixels in one row of a slab. */
  method RowTotal(histogram: array3<int>, box: Box, axis: Axis, k: int, u: int, total: int, ghost px: seq<Cell>)
    returns (total': int)
    requires IsHistogram(histogram, px) && InRange(box) && Lo(axis, box) <= k <= Hi(axis, box)
    requires Lo(Outer(axis), box) <= u <= Hi(Outer(axis), box)
    requires total == CountWhere(px, (c: Cell) => SlabBefore(box, axis, k, u, Lo(Inner(axis), box), c))
    ensures total' == CountWhere(px, (c: Cell) => SlabBefore(box, axis, k, u + 1, Lo(Inner(axis), box), c))
  {
    hide CountWhere, SlabBefore, InRange;
    var n := Inner(axis);
    total' := total;
    var v := Lo(n, box);
    InRangeAt(box, n);
    while v <= Hi(n, box)
      invariant Lo(n, box) <= v <= Hi(n, box) + 1
      invariant total' == CountWhere(px, (c: Cell) => SlabBefore(box, axis, k, u, v, c))
    {
      SlabStep(px, box, axis, k, u, v);
      SlabEntry(histogram, box, axis, k, u, v, px);
      var cell := SlabCell(axis, k, u, v);
      total' := total' + histogram[cell.r, cell.g, cell.b];
      v := v + 1;
    }
    SlabRow(px, box, axis, k, u);
  }

  lemma InRangeAt(box: Box, axis: Axis)
    requires InRange(box)
    ensures 0 <= Lo(axis, box) <= Hi(axis, box) < GMC_B_LEN
  {
  }

  /** The number of pixels in one slab of a box. */
  method SlabTotal(histogram: array3<int>, box: Box, axis: Axis, k: int, ghost px: seq<Cell>) returns (total: int)
    requires IsHistogram(histogram, px) && InRange(box) && Lo(axis, box) <= k <= Hi(axis, box)
    ensures total == CountWhere(px, (c: Cell) => InSlab(box, axis, k, c))
  {
    total := 0;
    var o, n := Outer(axis), Inner(axis);
    CountPositive(px, (c: Cell) => SlabBefore(box, axis, k, Lo(o, box), Lo(n, box), c));
    var u := Lo(o, box);
    while u <= Hi(o, box)
      invariant Lo(o, box) <= u <= Hi(o, box) + 1
      invariant total == CountWhere(px, (c: Cell) => SlabBefore(box, axis, k, u, Lo(n, box), c))
    {
      total := RowTotal(histogram, box, axis, k, u, total, px);
      u := u + 1;
    }
    CountSame(px, (c: Cell) => SlabBefore(box, axis, k, u, Lo(n, box), c), (c: Cell) => InSlab(box, axis, k, c));
  }

  /** Does one slab of a box hold a pixel at all? */
  method SlabOccupied(histogram: array3<int>, box: Box, axis: Axis, k: int, ghost px: seq<Cell>) returns (found: bool)
    requires IsHistogram(histogram, px) && InRange(box) && Lo(axis, box) <= k <= Hi(axis, box)
    ensures found <==> exists c :: c in px && InSlab(box, axis, k, c)
  {
    var o, n := Outer(axis), Inner(axis);
    var u := Lo(o, box);
    while u <= Hi(o, box)
      invariant Lo(o, box) <= u <= Hi(o, box) + 1
      invariant forall c :: c in px ==> !SlabBefore(box, axis, k, u, Lo(n, box), c)
    {
      var v := Lo(n, box);
      while v <= Hi(n, box)
        invariant Lo(n, box) <= v <= Hi(n, box) + 1
        invariant forall c :: c in px ==> !SlabBefore(box, axis, k, u, v, c)
      {
        var cell := SlabCell(axis, k, u, v);
        assert InCube(cell);
        CountPositive(px, (c: Cell) => c == cell);
        if histogram[cell.r, cell.g, cell.b] != 0 {
          assert InSlab(box, axis, k, cell);
          return true;
        }
        v := v + 1;
      }
      u := u + 1;
    }
    found := false;
    forall c | c in px && InSlab(box, axis, k, c)
      ensures SlabBefore(box, axis, k, u, Lo(n, box), c)
    {
    }
  }

  /** The histogram of a box along one axis. */
  method AxisHistogram(histogram: array3<int>, box: Box, axis: Axis, ghost px: seq<Cell>) returns (hist2: array<int>)
    requires IsHistogram(histogram, px) && InRange(box)
    ensures fresh(hist2) && hist2.Length == GMC_B_LEN
    ensures forall k :: Lo(axis, box) <= k <= Hi(axis, box) ==>
            hist2[k] == CountWhere(px, (c: Cell) => InSlab(box, axis, k, c))
  {
    hist2 := new int[GMC_B_LEN];
    var k := Lo(axis, box);
    while k <= Hi(axis, box)
      invariant Lo(axis, box) <= k <= Hi(axis, box) + 1
      invariant forall j :: Lo(axis, box) <= j < k ==> hist2[j] == CountWhere(px, (c: Cell) => InSlab(box, axis, j, c))
    {
      hist2[k] := SlabTotal(histogram, box, axis, k, px);
      k := k + 1;
    }
  }

  // ---------------------------------------------------------------------
  // The cut and the shrinking of a box.
  // ---------------------------------------------------------------------

  /** Pixels of the box before coordinate j. */
  ghost function SumBelow(px: seq<Cell>, box: Box, axis: Axis, j: int): nat {
    CountWhere(px, (c: Cell) => InBox(box, c) && Coord(axis, c) < j)
  }

  lemma SumBelowStep(px: seq<Cell>, box: Box, axis: Axis, j: int)
    ensures SumBelow(px, box, axis, j + 1) == SumBelow(px, box, axis, j) +
            CountWhere(px, (c: Cell) => InSlab(box, axis, j, c))
  {
    CountSplit(px, (c: Cell) => InBox(box, c) && Coord(axis, c) < j + 1,
               (c: Cell) => InBox(box, c) && Coord(axis, c) < j,
               (c: Cell) => InSlab(box, axis, j, c));
  }

  lemma SumBelowEnds(px: seq<Cell>, box: Box, axis: Axis)
    ensures SumBelow(px, box, axis, Lo(axis, box)) == 0
    ensures SumBelow(px, box, axis, Hi(axis, box) + 1) == CountBox(px, box)
  {
    CountPositive(px, (c: Cell) => InBox(box, c) && Coord(axis, c) < Lo(axis, box));
    CountSame(px, (c: Cell) => InBox(box, c) && Coord(axis, c) < Hi(axis, box) + 1, (c: Cell) => InBox(box, c));
  }

  lemma LowerCount(px: seq<Cell>, box: Box, axis: Axis, cut: int)
    requires cut <= Hi(axis, box) + 1
    ensures SumBelow(px, box, axis, cut) == CountBox(px, Lower(box, axis, cut, 0))
  {
    CountSame(px, (c: Cell) => InBox(box, c) && Coord(axis, c) < cut, (c: Cell) => InBox(Lower(box, axis, cut, 0), c));
  }

  /** The median point: the part before the cut is the longest one that holds less
      than half of the pixels, but never empty. */
  method FindCut(hist2: array<int>, box: Box, axis: Axis, ghost px: seq<Cell>) returns (cut: int)
    requires GoodBox(px, box) && Lo(axis, box) < Hi(axis, box) && hist2.Length == GMC_B_LEN
    requires forall k :: Lo(axis, box) <= k <= Hi(axis, box) ==>
             hist2[k] == CountWhere(px, (c: Cell) => InSlab(box, axis, k, c))
    ensures Lo(axis, box) < cut <= Hi(axis, box)
    ensures IsMedian(px, box, axis, cut)
  {
    var first, last, sum2 := Lo(axis, box), Hi(axis, box), box.total / 2;
    var sum := 0;
    SumBelowEnds(px, box, axis);
    cut := first;
    while cut <= last
      invariant first <= cut <= last + 1 && sum == SumBelow(px, box, axis, cut)
      invariant cut == first || sum < sum2
    {
      assert SumBelow(px, box, axis, cut + 1) == SumBelow(px, box, axis, cut) + hist2[cut] by {
        SumBelowStep(px, box, axis, cut);
      }
      sum := sum + hist2[cut];
      if sum >= sum2 {
        break;
      }
      cut := cut + 1;
    }
    if cut == first {
      SumBelowStep(px, box, axis, cut + 1);
      cut := cut + 1;
    }
  }

  /** Adds up the axis histogram from one coordinate to another. */
  method SumHistogram(hist2: array<int>, box: Box, axis: Axis, start: int, end: int, ghost px: seq<Cell>)
    returns (sum: int)
    requires InRange(box) && hist2.Length == GMC_B_LEN && Lo(axis, box) <= start <= end <= Hi(axis, box) + 1
    requires forall k :: Lo(axis, box) <= k <= Hi(axis, box) ==>
             hist2[k] == CountWhere(px, (c: Cell) => InSlab(box, axis, k, c))
    ensures sum == SumBelow(px, box, axis, end) - SumBelow(px, box, axis, start)
  {
    sum := 0;
    var j := start;
    while j < end
      invariant start <= j <= end && sum == SumBelow(px, box, axis, j) - SumBelow(px, box, axis, start)
    {
      SumBelowStep(px, box, axis, j);
      sum := sum + hist2[j];
      j := j + 1;
    }
  }

  ghost predicate Occupied(px: seq<Cell>, box: Box) {
    exists c :: c in px && InBox(box, c)
  }

  /** v is the outermost coordinate of the box's pixels at its lower or upper end. */
  ghost predicate OutermostLow(px: seq<Cell>, box: Box, axis: Axis, v: int) {
    (exists c :: c in px && InSlab(box, axis, v, c)) && forall c :: c in px && InBox(box, c) ==> v <= Coord(axis, c)
  }

  ghost predicate OutermostHigh(px: seq<Cell>, box: Box, axis: Axis, v: int) {
    (exists c :: c in px && InSlab(box, axis, v, c)) && forall c :: c in px && InBox(box, c) ==> Coord(axis, c) <= v
  }

  method FirstOccupied(histogram: array3<int>, box: Box, axis: Axis, ghost px: seq<Cell>) returns (k: int)
    requires IsHistogram(histogram, px) && InRange(box) && Occupied(px, box)
    ensures Lo(axis, box) <= k <= Hi(axis, box) && OutermostLow(px, box, axis, k)
  {
    hide IsHistogram;
    ghost var c0: Cell :| c0 in px && InBox(box, c0);
    k := Lo(axis, box);
    while true
      invariant Lo(axis, box) <= k <= Coord(axis, c0)
      invariant forall c :: c in px && InBox(box, c) ==> k <= Coord(axis, c)
      decreases Hi(axis, box) - k
    {
      var found := SlabOccupied(histogram, box, axis, k, px);
      if found {
        return;
      }
      assert !InSlab(box, axis, k, c0);
      k := k + 1;
    }
  }

  method LastOccupied(histogram: array3<int>, box: Box, axis: Axis, ghost px: seq<Cell>) returns (k: int)
    requires IsHistogram(histogram, px) && InRange(box) && Occupied(px, box)
    ensures Lo(axis, box) <= k <= Hi(axis, box) && OutermostHigh(px, box, axis, k)
  {
    hide IsHistogram;
    ghost var c0: Cell :| c0 in px && InBox(box, c0);
    k := Hi(axis, box);
    while true
      invariant Coord(axis, c0) <= k <= Hi(axis, box)
      invariant forall c :: c in px && InBox(box, c) ==> Coord(axis, c) <= k
      decreases k
    {
      var found := SlabOccupied(histogram, box, axis, k, px);
      if found {
        return;
      }
      assert !InSlab(box, axis, k, c0);
      k := k - 1;
    }
  }

  lemma RaiseLow(px: seq<Cell>, box: Box, axis: Axis, v: int) returns (small: Box)
    requires InRange(box) && Lo(axis, box) <= v <= Hi(axis, box) && OutermostLow(px, box, axis, v)
    ensures small == SetLo(axis, box, v) && ShrunkTo(px, box, small) && OutermostLow(px, small, axis, v)
  {
    small := SetLo(axis, box, v);
    var c :| c in px && InSlab(box, axis, v, c);
    assert InSlab(small, axis, v, c);
  }

  lemma DropHigh(px: seq<Cell>, box: Box, axis: Axis, v: int) returns (small: Box)
    requires InRange(box) && Lo(axis, box) <= v <= Hi(axis, box) && OutermostHigh(px, box, axis, v)
    requires OutermostLow(px, box, axis, Lo(axis, box))
    ensures small == SetHi(axis, box, v) && ShrunkTo(px, box, small) && TightAlong(px, small, axis)
  {
    small := SetHi(axis, box, v);
    var c :| c in px && InSlab(box, axis, v, c);
    assert InSlab(small, axis, v, c);
    var d :| d in px && InSlab(box, axis, Lo(axis, box), d);
    assert InSlab(small, axis, Lo(axis, box), d);
  }

  /** A slab that is all of the box, or whose lower face is its only coordinate, is tight. */
  lemma FlatIsTight(px: seq<Cell>, box: Box, axis: Axis)
    requires InRange(box) && Occupied(px, box) && Hi(axis, box) <= Lo(axis, box)
    ensures TightAlong(px, box, axis)
  {
    var c :| c in px && InBox(box, c);
    assert Coord(axis, c) == Lo(axis, box) == Hi(axis, box);
  }

  lemma ShrunkTwice(px: seq<Cell>, a: Box, b: Box, c: Box)
    requires ShrunkTo(px, a, b) && ShrunkTo(px, b, c)
    ensures ShrunkTo(px, a, c)
  {
  }

  /** Moves the faces of a box inwards along one axis until each touches a pixel. */
  method ShrinkAxis(histogram: array3<int>, box: Box, axis: Axis, ghost px: seq<Cell>) returns (small: Box)
    requires IsHistogram(histogram, px) && InRange(box) && Occupied(px, box)
    ensures ShrunkTo(px, box, small) && TightAlong(px, small, axis) && Occupied(px, small)
    ensures forall other :: other != axis ==> Lo(other, small) == Lo(other, box) && Hi(other, small) == Hi(other, box)
  {
    hide IsHistogram, ShrunkTo, TightAlong, OutermostLow, OutermostHigh;
    small := box;
    ShrunkSelf(px, box);
    if Hi(axis, box) > Lo(axis, box) {
      var lo := FirstOccupied(histogram, box, axis, px);
      small := SetLo(axis, small, lo);
      ghost var raised := RaiseLow(px, box, axis, lo);
      ShrunkOccupied(px, box, small);
      if Hi(axis, small) > Lo(axis, small) {
        var hi := LastOccupied(histogram, small, axis, px);
        ghost var dropped := DropHigh(px, small, axis, hi);
        small := SetHi(axis, small, hi);
        ShrunkTwice(px, box, raised, small);
        ShrunkOccupied(px, box, small);
      } else {
        FlatIsTight(px, small, axis);
      }
    } else {
      FlatIsTight(px, box, axis);
    }
  }

  lemma ShrunkSelf(px: seq<Cell>, box: Box)
    requires InRange(box)
    ensures ShrunkTo(px, box, box)
  {
  }

  lemma ShrunkOccupied(px: seq<Cell>, box: Box, small: Box)
    requires ShrunkTo(px, box, small) && Occupied(px, box)
    ensures Occupied(px, small) && InRange(small) && small.total == box.total &&
            CountBox(px, small) == CountBox(px, box)
  {
    var c :| c in px && InBox(box, c);
    assert InBox(small, c);
    CountSame(px, (c: Cell) => InBox(box, c), (c: Cell) => InBox(small, c));
  }

  lemma ShrunkKeepsTight(px: seq<Cell>, box: Box, small: Box, axis: Axis)
    requires ShrunkTo(px, box, small) && TightAlong(px, box, axis)
    requires Lo(axis, small) == Lo(axis, box) && Hi(axis, small) == Hi(axis, box)
    ensures TightAlong(px, small, axis)
  {
  }

  /** Contracts a box that holds pixels to fit them. */
  method ShrinkBox(histogram: array3<int>, box: Box, ghost px: seq<Cell>) returns (small: Box)
    requires IsHistogram(histogram, px) && InRange(box) && box.total == CountBox(px, box) > 0
    ensures ShrunkTo(px, box, small) && GoodBox(px, small)
  {
    hide IsHistogram, ShrunkTo, TightAlong, CountBox;
    OccupiedByCount(px, box);
    var r := ShrinkAxis(histogram, box, Red, px);
    ShrunkOccupied(px, box, r);
    var g := ShrinkAxis(histogram, r, Green, px);
    ShrunkOccupied(px, r, g);
    ShrunkKeepsTight(px, r, g, Red);
    small := ShrinkAxis(histogram, g, Blue, px);
    ShrunkOccupied(px, g, small);
    ShrunkKeepsTight(px, g, small, Red);
    ShrunkKeepsTight(px, g, small, Green);
    ShrunkTwice(px, box, r, g);
    ShrunkTwice(px, box, g, small);
    TightEverywhere(px, small);
  }

  lemma TightEverywhere(px: seq<Cell>, box: Box)
    requires TightAlong(px, box, Red) && TightAlong(px, box, Green) && TightAlong(px, box, Blue)
    ensures forall axis :: TightAlong(px, box, axis)
  {
    forall axis
      ensures TightAlong(px, box, axis)
    {
      match axis
      case Red =>
      case Green =>
      case Blue =>
    }
  }

  lemma OccupiedByCount(px: seq<Cell>, box: Box)
    requires CountBox(px, box) > 0
    ensures Occupied(px, box)
  {
    CountPositive(px, (c: Cell) => InBox(box, c));
  }

  // ---------------------------------------------------------------------
  // The lists of free and used boxes.
  // ---------------------------------------------------------------------

  class Colorbox {
    var next: Colorbox?
    var prev: Colorbox?
    var box: Box
  }

  /** nodes are the boxes reached from head. */
  ghost predicate IsList(head: Colorbox?, nodes: seq<Colorbox>)
    reads (set n | n in nodes)`next
  {
    && head == (if nodes == [] then null else nodes[0])
    && forall i {:trigger nodes[i].next} :: 0 <= i < |nodes| ==>
        nodes[i].next == if i + 1 < |nodes| then nodes[i + 1] else null
  }

  ghost predicate BackLinked(nodes: seq<Colorbox>)
    reads (set n | n in nodes)`prev
  {
    forall i {:trigger nodes[i].prev} :: 0 <= i < |nodes| ==> nodes[i].prev == if i == 0 then null else nodes[i - 1]
  }

  ghost predicate AllDistinct(nodes: seq<Colorbox>) {
    forall i, j :: 0 <= i < j < |nodes| ==> nodes[i] != nodes[j]
  }

  ghost function Boxes(nodes: seq<Colorbox>): (r: seq<Box>)
    reads nodes
    ensures |r| == |nodes| && forall i :: 0 <= i < |nodes| ==> r[i] == nodes[i].box
  {
    seq(|nodes|, i requires 0 <= i < |nodes| reads nodes => nodes[i].box)
  }

  /** The free and the used list share out the box array; both are doubly linked,
      unless there is a single box. */
  ghost predicate TwoLists(freeboxes: Colorbox?, free: seq<Colorbox>, usedboxes: Colorbox?, used: seq<Colorbox>,
                           all: set<Colorbox>, numColors: nat)
    reads (set n | n in free + used)`next, (set n | n in free + used)`prev
  {
    && IsList(freeboxes, free) && IsList(usedboxes, used)
    && AllDistinct(free + used)
    && (set n | n in free + used) == all
    && (numColors >= 2 ==> BackLinked(free) && BackLinked(used))
  }

  /** Links the freshly allocated box array into one free list. */
  method LinkBoxes(numColors: nat) returns (freeboxes: Colorbox, ghost nodes: seq<Colorbox>)
    requires numColors >= 1
    ensures fresh(nodes) && |nodes| == numColors && AllDistinct(nodes) && IsList(freeboxes, nodes)
    ensures numColors >= 2 ==> BackLinked(nodes)
  {
    var box_list: seq<Colorbox> := [];
    while |box_list| < numColors
      invariant |box_list| <= numColors && fresh(box_list) && AllDistinct(box_list)
    {
      var cb := new Colorbox;
      box_list := box_list + [cb];
    }
    freeboxes, nodes := box_list[0], box_list;
    if numColors > 1 {
      box_list[0].next := box_list[1];
    }
    box_list[0].prev := null;
    var i := 1;
    while i < numColors - 1
      invariant 1 <= i && (numColors > 1 ==> i < numColors)
      invariant numColors > 1 ==> forall j {:trigger box_list[j].next} :: 0 <= j < i ==>
                box_list[j].next == box_list[j + 1]
      invariant forall j {:trigger box_list[j].prev} :: 0 <= j < i && j < numColors ==>
                box_list[j].prev == if j == 0 then null else box_list[j - 1]
    {
      box_list[i].next := box_list[i + 1];
      box_list[i].prev := box_list[i - 1];
      i := i + 1;
    }
    box_list[numColors - 1].next := null;
    if numColors > 1 {
      label beforeLast:
      box_list[numColors - 1].prev := box_list[numColors - 2];
      forall j | 0 <= j < numColors
        ensures box_list[j].prev == if j == 0 then null else box_list[j - 1]
      {
        if j < numColors - 1 {
          assert box_list[j] != box_list[numColors - 1];
          assert box_list[j].prev == old@beforeLast(box_list[j].prev);
        }
      }
    }
  }

  /** Moves the first free box to the front of the used list. */
  method TakeBox(freeboxes: Colorbox, usedboxes: Colorbox?, ghost free: seq<Colorbox>, ghost used: seq<Colorbox>,
                 ghost all: set<Colorbox>, ghost numColors: nat)
    returns (freeboxes': Colorbox?, usedboxes': Colorbox?)
    requires TwoLists(freeboxes, free, usedboxes, used, all, numColors)
    modifies (set n | n in free + used)`next, (set n | n in free + used)`prev
    ensures TwoLists(freeboxes', free[1..], usedboxes', [freeboxes] + used, all, numColors)
  {
    var new_cb := freeboxes;
    assert new_cb == free[0] && new_cb in free + used;
    DistinctParts(free, used);
    freeboxes' := new_cb.next;
    if freeboxes' != null {
      assert freeboxes' == free[1] && free[1] in free + used;
      freeboxes'.prev := null;
    }
    if usedboxes != null {
      assert usedboxes == used[0] && used[0] in free + used;
      usedboxes.prev := new_cb;
    }
    new_cb.next := usedboxes;
    usedboxes' := new_cb;
    MovedDistinct(free, used);
    ghost var free', used' := free[1..], [new_cb] + used;
    forall i | 0 <= i < |free'|
      ensures free'[i].next == if i + 1 < |free'| then free'[i + 1] else null
      ensures numColors >= 2 ==> free'[i].prev == if i == 0 then null else free'[i - 1]
    {
      assert free'[i] == free[i + 1] && free[i + 1] != new_cb;
      if i + 1 < |free'| {
        assert free'[i + 1] == free[i + 2];
      }
      if i > 0 {
        assert free'[i - 1] == free[i] && free[i + 1] != free[1];
      }
    }
    forall i | 0 <= i < |used'|
      ensures used'[i].next == if i + 1 < |used'| then used'[i + 1] else null
      ensures numColors >= 2 ==> used'[i].prev == if i == 0 then null else used'[i - 1]
    {
      if i > 0 {
        assert used'[i] == used[i - 1] && used[i - 1] != new_cb;
        if i + 1 < |used'| {
          assert used'[i + 1] == used[i];
        }
        if i > 1 {
          assert used'[i - 1] == used[i - 2] && used[i - 1] != used[0];
        }
      }
    }
  }

  lemma DistinctParts(free: seq<Colorbox>, used: seq<Colorbox>)
    requires AllDistinct(free + used)
    ensures AllDistinct(free) && AllDistinct(used)
    ensures forall i, j :: 0 <= i < |free| && 0 <= j < |used| ==> free[i] != used[j]
  {
    assert forall i :: 0 <= i < |free| ==> (free + used)[i] == free[i];
    assert forall j :: 0 <= j < |used| ==> (free + used)[|free| + j] == used[j];
  }

  lemma MovedDistinct(free: seq<Colorbox>, used: seq<Colorbox>)
    requires |free| > 0 && AllDistinct(free + used)
    ensures AllDistinct(free[1..] + ([free[0]] + used))
    ensures (set n | n in free[1..] + ([free[0]] + used)) == (set n | n in free + used)
  {
    var a, b := free + used, free[1..] + ([free[0]] + used);
    var at := (i: nat) => if i < |free| - 1 then i + 1 else if i == |free| - 1 then 0 else i;
    assert forall i :: 0 <= i < |b| ==> b[i] == a[at(i)];
    forall n
      ensures n in a <==> n in b
    {
      if n in a {
        var i :| 0 <= i < |a| && a[i] == n;
        assert b[if i == 0 then |free| - 1 else if i < |free| then i - 1 else i] == n;
      }
    }
  }

  /** The first box with the largest total among those that can be split, or null. */
  method LargestBox(usedboxes: Colorbox?, ghost used: seq<Colorbox>) returns (b: Colorbox?, ghost k: nat)
    requires IsList(usedboxes, used) && forall i :: 0 <= i < |used| ==> used[i].box.total >= 0
    ensures b == null ==> forall i :: 0 <= i < |used| ==> Single(used[i].box)
    ensures b != null ==>
              && k < |used| && used[k] == b && !Single(b.box)
              && FirstLargest(Boxes(used), k)
  {
    b, k := null, 0;
    var size := -1;
    var p := usedboxes;
    ghost var n := 0;
    while p != null
      invariant n <= |used| && p == if n < |used| then used[n] else null
      invariant b == null ==> size == -1 && forall i :: 0 <= i < n ==> Single(used[i].box)
      invariant b != null ==>
                  && k < |used| && used[k] == b && !Single(b.box) && size == b.box.total
                  && (forall i :: 0 <= i < n && !Single(used[i].box) ==> used[i].box.total <= size)
                  && (forall i :: 0 <= i < k && !Single(used[i].box) ==> used[i].box.total < size)
      decreases |used| - n
    {
      var box := p.box;
      if (box.rmax > box.rmin || box.gmax > box.gmin || box.bmax > box.bmin) && box.total > size {
        b, size := p, box.total;
        k := n;
      }
      p := p.next;
      n := n + 1;
    }
  }

  /** Everything the main loop keeps. */
  ghost predicate Splitting(histogram: array3<int>, px: seq<Cell>, freeboxes: Colorbox?, free: seq<Colorbox>,
                            usedboxes: Colorbox?, used: seq<Colorbox>, all: set<Colorbox>, numColors: nat)
    reads histogram, free, used
  {
    && TwoLists(freeboxes, free, usedboxes, used, all, numColors)
    && IsHistogram(histogram, px)
    && Partition(px, Boxes(used))
  }

  method LongestAxis(box: Box) returns (axis: Axis)
    requires !Single(box)
    ensures FirstLongest(axis, box) && Lo(axis, box) < Hi(axis, box)
  {
    var i := box.rmax - box.rmin;
    if i >= box.gmax - box.gmin && i >= box.bmax - box.bmin {
      axis := Red;
    } else if box.gmax - box.gmin >= box.bmax - box.bmin {
      axis := Green;
    } else {
      axis := Blue;
    }
  }

  /** The two tight boxes that a box is split into. */
  method SplitValue(histogram: array3<int>, box: Box, ghost px: seq<Cell>)
    returns (low: Box, high: Box, ghost axis: Axis, ghost cut: int, ghost sum1: int, ghost sum2: int)
    requires IsHistogram(histogram, px) && GoodBox(px, box) && !Single(box)
    ensures FirstLongest(axis, box) && IsMedian(px, box, axis, cut)
    ensures GoodBox(px, low) && GoodBox(px, high)
    ensures ShrunkTo(px, Lower(box, axis, cut, sum1), low) && ShrunkTo(px, Upper(box, axis, cut, sum2), high)
  {
    hide IsHistogram, ShrunkTo, CountBox;
    var ax := LongestAxis(box);
    var hist2 := AxisHistogram(histogram, box, ax, px);
    var i := FindCut(hist2, box, ax, px);
    var s1 := SumHistogram(hist2, box, ax, Lo(ax, box), i, px);
    var s2 := SumHistogram(hist2, box, ax, i, Hi(ax, box) + 1, px);
    SumBelowEnds(px, box, ax);
    HalvesPositive(px, box, ax, i);
    LowerCount(px, box, ax, i);
    SameCount(px, box, ax, i, s1, s2);
    low := ShrinkBox(histogram, Lower(box, ax, i, s1), px);
    high := ShrinkBox(histogram, Upper(box, ax, i, s2), px);
    axis, cut, sum1, sum2 := ax, i, s1, s2;
  }

  /** The stored total plays no part in what a box contains. */
  lemma SameCount(px: seq<Cell>, box: Box, axis: Axis, cut: int, sum1: int, sum2: int)
    ensures CountBox(px, Lower(box, axis, cut, sum1)) == CountBox(px, Lower(box, axis, cut, 0))
    ensures CountBox(px, Upper(box, axis, cut, sum2)) == CountBox(px, Upper(box, axis, cut, 0))
  {
    CountSame(px, (c: Cell) => InBox(Lower(box, axis, cut, sum1), c), (c: Cell) => InBox(Lower(box, axis, cut, 0), c));
    CountSame(px, (c: Cell) => InBox(Upper(box, axis, cut, sum2), c), (c: Cell) => InBox(Upper(box, axis, cut, 0), c));
  }

  method SplitBox(ptr: Colorbox, histogram: array3<int>, freeboxes: Colorbox, usedboxes: Colorbox?, ghost k: nat,
                  ghost px: seq<Cell>, ghost free: seq<Colorbox>, ghost used: seq<Colorbox>,
                  ghost all: set<Colorbox>, ghost numColors: nat)
    returns (freeboxes': Colorbox?, usedboxes': Colorbox?)
    requires Splitting(histogram, px, freeboxes, free, usedboxes, used, all, numColors)
    requires k < |used| && used[k] == ptr && !Single(ptr.box)
    modifies set n | n in free + used
    ensures Splitting(histogram, px, freeboxes', free[1..], usedboxes', [freeboxes] + used, all, numColors)
    ensures ReplacedAt(px, old(Boxes(used)), k, Boxes([freeboxes] + used))
  {
    hide Partition, IsHistogram, IsList, BackLinked, ShrunkTo, GoodBox, Boxes, CountWhere, CountBox, SumBelow;
    ghost var boxes := Boxes(used);
    GoodAt(px, boxes, k);
    DistinctParts(free, used);
    var low, high, axis, cut, sum1, sum2 := SplitValue(histogram, ptr.box, px);
    SplitKeepsPartition(px, boxes, k, axis, cut, sum1, sum2, low, high);
    HalvesAreCut(px, boxes[k], axis, cut, sum1, sum2, low, high);
    hide CutInTwo, IsMedian, FirstLongest;
    var new_cb := freeboxes;
    ListHead(freeboxes, free);
    assert new_cb in free + used && ptr in free + used;
    MovedDistinct(free, used);
    freeboxes', usedboxes' := TakeBox(freeboxes, usedboxes, free, used, all, numColors);
    new_cb.box := low;
    ptr.box := high;
    SplitBoxes(new_cb, used, k, boxes, low, high);
  }

  lemma ListHead(head: Colorbox, nodes: seq<Colorbox>)
    requires IsList(head, nodes)
    ensures |nodes| > 0 && head == nodes[0]
  {
  }

  lemma GoodAt(px: seq<Cell>, boxes: seq<Box>, k: nat)
    requires Partition(px, boxes) && k < |boxes|
    ensures GoodBox(px, boxes[k])
  {
  }

  lemma SplitBoxes(head: Colorbox, used: seq<Colorbox>, k: nat, boxes: seq<Box>, low: Box, high: Box)
    requires k < |used| == |boxes| && head.box == low && used[k].box == high
    requires forall i :: 0 <= i < |used| && i != k ==> used[i].box == boxes[i]
    ensures Boxes([head] + used) == [low] + boxes[k := high]
  {
    hide Boxes;
    assert Boxes(used) == boxes[k := high];
    forall i | 0 <= i <= |used|
      ensures Boxes([head] + used)[i] == ([low] + boxes[k := high])[i]
    {
      assert ([head] + used)[i] == if i == 0 then head else used[i - 1];
    }
  }

  // ---------------------------------------------------------------------
  // The whole algorithm.
  // ---------------------------------------------------------------------

  type GByte = x: int | 0 <= x < 256

  /** A band of bytes. */
  datatype Band = Band(xSize: nat, lines: seq<seq<GByte>>)

  ghost predicate ValidBand(band: Band) {
    forall y :: 0 <= y < |band.lines| ==> |band.lines[y]| == band.xSize
  }

  function Quantised(r: GByte, g: GByte, b: GByte): (c: Cell)
    ensures InCube(c)
  {
    Cell(r / 8, g / 8, b / 8)
  }

  /** The quantised colours of all pixels, line by line. */
  ghost function LineCells(r: seq<GByte>, g: seq<GByte>, b: seq<GByte>): (px: seq<Cell>)
    requires |r| == |g| == |b|
    ensures |px| == |r|
  {
    seq(|r|, i requires 0 <= i < |r| => Quantised(r[i], g[i], b[i]))
  }

  ghost predicate SameSize(a: Band, b: Band) {
    a.xSize == b.xSize && |a.lines| == |b.lines|
  }

  ghost function BandCells(r: Band, g: Band, b: Band, n: nat): (px: seq<Cell>)
    requires ValidBand(r) && ValidBand(g) && ValidBand(b) && SameSize(r, g) && SameSize(r, b) && n <= |r.lines|
    ensures |px| == n * r.xSize
  {
    if n == 0 then [] else BandCells(r, g, b, n - 1) + LineCells(r.lines[n - 1], g.lines[n - 1], b.lines[n - 1])
  }

  /** The box fits the pixels seen so far. */
  ghost predicate Bounds(px: seq<Cell>, box: Box) {
    if px == [] then box.rmin == box.gmin == box.bmin == 999 && box.rmax == box.gmax == box.bmax == -1
    else (forall c :: c in px ==> InBox(box, c)) && forall axis :: TightAlong(px, box, axis)
  }

  function Grown(box: Box, c: Cell): Box {
    box.(rmin := Min(box.rmin, c.r), gmin := Min(box.gmin, c.g), bmin := Min(box.bmin, c.b),
         rmax := Max(box.rmax, c.r), gmax := Max(box.gmax, c.g), bmax := Max(box.bmax, c.b))
  }

  lemma GrownBounds(px: seq<Cell>, box: Box, c: Cell)
    requires Bounds(px, box) && InCube(c)
    ensures Bounds(px + [c], Grown(box, c))
  {
    var all, big := px + [c], Grown(box, c);
    assert c in all;
    forall axis
      ensures TightAlong(all, big, axis)
    {
      if px == [] {
        assert InBox(big, c) && Coord(axis, c) == Lo(axis, big) == Hi(axis, big);
      } else {
        assert TightAlong(px, box, axis);
        var lo :| lo in px && InBox(box, lo) && Coord(axis, lo) == Lo(axis, box);
        var hi :| hi in px && InBox(box, hi) && Coord(axis, hi) == Hi(axis, box);
        assert lo in all && hi in all && InBox(big, lo) && InBox(big, hi) && InBox(big, c);
        assert Lo(axis, big) == Coord(axis, lo) || Lo(axis, big) == Coord(axis, c);
        assert Hi(axis, big) == Coord(axis, hi) || Hi(axis, big) == Coord(axis, c);
      }
    }
  }

  lemma CountPush(px: seq<Cell>, c: Cell, region: Cell -> bool)
    ensures CountWhere(px + [c], region) == CountWhere(px, region) + if region(c) then 1 else 0
  {
    assert (px + [c])[..|px|] == px;
  }

  /** Counts one more pixel. */
  method CountPixel(histogram: array3<int>, box: Box, c: Cell, ghost px: seq<Cell>) returns (box': Box)
    requires IsHistogram(histogram, px) && Bounds(px, box) && InCube(c)
    modifies histogram
    ensures IsHistogram(histogram, px + [c]) && Bounds(px + [c], box') && box'.total == box.total
  {
    box' := Grown(box, c);
    GrownBounds(px, box, c);
    forall d | InCube(d)
      ensures CountWhere(px + [c], (x: Cell) => x == d) == CountWhere(px, (x: Cell) => x == d) + if c == d then 1 else 0
    {
      CountPush(px, c, (x: Cell) => x == d);
    }
    histogram[c.r, c.g, c.b] := histogram[c.r, c.g, c.b] + 1;
  }

  method CollectHistogram(red: Band, green: Band, blue: Band)
    returns (histogram: array3<int>, box: Box, ghost px: seq<Cell>)
    requires ValidBand(red) && ValidBand(green) && ValidBand(blue) && SameSize(red, green) && SameSize(red, blue)
    ensures fresh(histogram) && px == BandCells(red, green, blue, |red.lines|)
    ensures IsHistogram(histogram, px) && Bounds(px, box) && box.total == |px|
  {
    hide IsHistogram, Bounds;
    histogram := new int[GMC_B_LEN, GMC_B_LEN, GMC_B_LEN]((_, _, _) => 0);
    box := Box(999, -1, 999, -1, 999, -1, red.xSize * |red.lines|);
    px := [];
    EmptyHistogram(histogram, box);
    for lineIndex := 0 to |red.lines|
      invariant IsHistogram(histogram, px) && Bounds(px, box) && box.total == red.xSize * |red.lines|
      invariant px == BandCells(red, green, blue, lineIndex)
    {
      var redLine, greenLine, blueLine := red.lines[lineIndex], green.lines[lineIndex], blue.lines[lineIndex];
      ghost var before, line := px, LineCells(redLine, greenLine, blueLine);
      for pixelIndex := 0 to red.xSize
        invariant IsHistogram(histogram, px) && Bounds(px, box) && box.total == red.xSize * |red.lines|
        invariant px == before + line[..pixelIndex]
      {
        var c := Quantised(redLine[pixelIndex], greenLine[pixelIndex], blueLine[pixelIndex]);
        box := CountPixel(histogram, box, c, px);
        px := px + [c];
        assert line[..pixelIndex + 1] == line[..pixelIndex] + [c];
      }
      assert line[..red.xSize] == line;
    }
  }

  lemma EmptyHistogram(histogram: array3<int>, box: Box)
    requires histogram.Length0 == histogram.Length1 == histogram.Length2 == GMC_B_LEN
    requires forall i, j, k :: 0 <= i < GMC_B_LEN && 0 <= j < GMC_B_LEN && 0 <= k < GMC_B_LEN ==>
             histogram[i, j, k] == 0
    requires box.rmin == box.gmin == box.bmin == 999 && box.rmax == box.gmax == box.bmax == -1
    ensures IsHistogram(histogram, []) && Bounds([], box)
  {
  }

  /** The box around all pixels is the partition the main loop starts from. */
  lemma WholeBox(px: seq<Cell>, box: Box)
    requires px != [] && Bounds(px, box) && box.total == |px| && forall c :: c in px ==> InCube(c)
    ensures Partition(px, [box])
  {
    CountAll(px, (c: Cell) => InBox(box, c));
    assert TightAlong(px, box, Red) && TightAlong(px, box, Green) && TightAlong(px, box, Blue);
    assert forall c :: c in px ==> InBox([box][0], c);
  }

  datatype CPLErr = CE_None | CE_Failure

  datatype ColorEntry = ColorEntry(c1: int, c2: int, c3: int, c4: int)

  /** The colour of a box: the middle of its bounds, as a byte. */
  function EntryOf(box: Box): ColorEntry {
    ColorEntry((box.rmin + box.rmax) * 8 / 2 % 256, (box.gmin + box.gmax) * 8 / 2 % 256,
               (box.bmin + box.bmax) * 8 / 2 % 256, 255)
  }

  /** value lies as far above 8 * lo as below 8 * hi, lo and hi being the least and the greatest in the box. */
  ghost predicate Midway(px: seq<Cell>, box: Box, axis: Axis, value: int) {
    exists c, d ::
      && c in px && InBox(box, c) && d in px && InBox(box, d)
      && (forall e :: e in px && InBox(box, e) ==> Coord(axis, c) <= Coord(axis, e) <= Coord(axis, d))
      && value - 8 * Coord(axis, c) == 8 * Coord(axis, d) - value
  }

  /** An opaque colour in the middle of the pixels of a box, channel by channel. */
  ghost predicate IsMiddle(px: seq<Cell>, box: Box, entry: ColorEntry) {
    && Midway(px, box, Red, entry.c1) && Midway(px, box, Green, entry.c2) && Midway(px, box, Blue, entry.c3)
    && entry.c4 == 255
  }

  lemma EntryIsMiddle(px: seq<Cell>, box: Box)
    requires GoodBox(px, box)
    ensures IsMiddle(px, box, EntryOf(box))
  {
    EntryBytes(box);
    hide GoodBox, Midway, EntryOf;
    BoundsMidway(px, box, Red, EntryOf(box).c1);
    BoundsMidway(px, box, Green, EntryOf(box).c2);
    BoundsMidway(px, box, Blue, EntryOf(box).c3);
  }

  lemma EntryBytes(box: Box)
    requires InRange(box)
    ensures EntryOf(box) ==
            ColorEntry(4 * (box.rmin + box.rmax), 4 * (box.gmin + box.gmax), 4 * (box.bmin + box.bmax), 255)
  {
  }

  lemma BoundsMidway(px: seq<Cell>, box: Box, axis: Axis, value: int)
    requires GoodBox(px, box) && value == 4 * (Lo(axis, box) + Hi(axis, box))
    ensures Midway(px, box, axis, value)
  {
    assert TightAlong(px, box, axis);
    var c :| c in px && InBox(box, c) && Coord(axis, c) == Lo(axis, box);
    var d :| d in px && InBox(box, d) && Coord(axis, d) == Hi(axis, box);
    assert forall e :: InBox(box, e) ==> Coord(axis, c) <= Coord(axis, e) <= Coord(axis, d);
  }

  lemma EntriesAreMiddles(px: seq<Cell>, boxes: seq<Box>, table: seq<ColorEntry>)
    requires Partition(px, boxes) && |table| == |boxes|
    requires forall i :: 0 <= i < |table| ==> table[i] == EntryOf(boxes[i])
    ensures forall i :: 0 <= i < |table| ==> IsMiddle(px, boxes[i], table[i])
  {
    hide EntryOf, IsMiddle;
    forall i | 0 <= i < |table|
      ensures IsMiddle(px, boxes[i], table[i])
    {
      GoodAt(px, boxes, i);
      EntryIsMiddle(px, boxes[i]);
    }
  }

  /** Splits boxes until none is free or none can be split. */
  method SplitAll(histogram: array3<int>, first: Colorbox, freeboxes0: Colorbox?, numColors: nat, ghost px: seq<Cell>,
                  ghost free0: seq<Colorbox>, ghost all: set<Colorbox>)
    returns (usedboxes: Colorbox?, ghost used: seq<Colorbox>, ghost history: seq<seq<Box>>)
    requires Splitting(histogram, px, freeboxes0, free0, first, [first], all, numColors) && |free0| + 1 == numColors
    modifies all
    ensures IsList(usedboxes, used) && Partition(px, Boxes(used))
    ensures History(px, history) && history[|history| - 1] == Boxes(used)
    ensures |used| == Min(numColors, |Colours(px)|)
    ensures |Colours(px)| <= numColors ==> forall i :: 0 <= i < |used| ==> Single(used[i].box)
  {
    hide Partition, IsHistogram, BackLinked, IsList, Step, ReplacedAt, FirstLargest, Boxes;
    var freeboxes := freeboxes0;
    usedboxes := first;
    history := [Boxes([first])];
    ghost var free := free0;
    used := [first];
    ghost var stuck := false;
    while freeboxes != null
      invariant Splitting(histogram, px, if stuck then null else freeboxes, free, usedboxes, used, all, numColors)
                || stuck
      invariant stuck ==> freeboxes == null && IsList(usedboxes, used) && Partition(px, Boxes(used))
      invariant stuck ==> forall i :: 0 <= i < |used| ==> Single(used[i].box)
      invariant |used| + |free| == numColors && History(px, history) && history[|history| - 1] == Boxes(used)
      decreases freeboxes != null, |free|
    {
      TotalsPositive(px, used);
      var ptr, k := LargestBox(usedboxes, used);
      if ptr != null {
        ListHead(freeboxes, free);
        freeboxes, usedboxes := SplitBox(ptr, histogram, freeboxes, usedboxes, k, px, free, used, all, numColors);
        used, free := [free[0]] + used, free[1..];
        NextStep(px, history, k, Boxes(used));
        history := history + [Boxes(used)];
      } else {
        freeboxes := null;
        stuck := true;
      }
    }
    if !stuck {
      NullList(free);
    }
    FinalCount(px, Boxes(used), numColors);
  }

  lemma NullList(nodes: seq<Colorbox>)
    requires IsList(null, nodes)
    ensures nodes == []
  {
  }

  lemma TotalsPositive(px: seq<Cell>, used: seq<Colorbox>)
    requires Partition(px, Boxes(used))
    ensures forall i :: 0 <= i < |used| ==> used[i].box.total >= 0
  {
    GoodTotals(px, Boxes(used));
  }

  lemma GoodTotals(px: seq<Cell>, boxes: seq<Box>)
    requires Partition(px, boxes)
    ensures forall i :: 0 <= i < |boxes| ==> boxes[i].total > 0
  {
    forall i | 0 <= i < |boxes|
      ensures GoodBox(px, boxes[i])
    {
    }
  }

  /** Computes a colour table of at most numColors entries for a non-empty image. */
  method GDALComputeMedianCutPCT(red: Band, green: Band, blue: Band, includePixel: bool, numColors: int)
    returns (err: CPLErr, table: seq<ColorEntry>, ghost boxes: seq<Box>, ghost history: seq<seq<Box>>)
    requires ValidBand(red) && ValidBand(green) && ValidBand(blue)
    requires red.xSize > 0 && |red.lines| > 0
    ensures err == CE_Failure <==>
              !SameSize(red, green) || !SameSize(red, blue) || includePixel || numColors <= 0 || numColors > 256
    ensures err == CE_Failure ==> table == []
    ensures err == CE_None ==>
              var px := BandCells(red, green, blue, |red.lines|);
              && Partition(px, boxes) && |table| == |boxes| == Min(numColors, |Colours(px)|)
              && History(px, history) && boxes == history[|history| - 1]
              && (forall i :: 0 <= i < |table| ==> IsMiddle(px, boxes[i], table[i]))
              && (|Colours(px)| <= numColors ==> forall i :: 0 <= i < |boxes| ==> Single(boxes[i]))
  {
    hide Partition, IsHistogram, BackLinked, Bounds, CountWhere, Colours, BandCells, Step;
    err, table, boxes, history := CE_Failure, [], [], [];
    if green.xSize != red.xSize || |green.lines| != |red.lines| || blue.xSize != red.xSize ||
        |blue.lines| != |red.lines| {
      return;
    }
    if includePixel || numColors <= 0 || numColors > 256 {
      return;
    }
    var usedboxes;
    ghost var used, px;
    usedboxes, used, px, history := BuildBoxes(red, green, blue, numColors);
    boxes := Boxes(used);
    table := AssignColors(usedboxes, used);
    EntriesAreMiddles(px, boxes, table);
    err := CE_None;
  }

  /** The colour of every used box, in list order. */
  method AssignColors(usedboxes: Colorbox?, ghost used: seq<Colorbox>) returns (table: seq<ColorEntry>)
    requires IsList(usedboxes, used)
    ensures |table| == |used| && forall i :: 0 <= i < |table| ==> table[i] == EntryOf(used[i].box)
  {
    table := [];
    var ptr := usedboxes;
    while ptr != null
      invariant |table| <= |used| && ptr == (if |table| < |used| then used[|table|] else null)
      invariant forall i :: 0 <= i < |table| ==> table[i] == EntryOf(used[i].box)
      decreases |used| - |table|
    {
      table := table + [EntryOf(ptr.box)];
      ptr := ptr.next;
    }
  }

  /** The histogram, the box lists, and the main loop over them. */
  method BuildBoxes(red: Band, green: Band, blue: Band, numColors: nat)
    returns (usedboxes: Colorbox?, ghost used: seq<Colorbox>, ghost px: seq<Cell>, ghost history: seq<seq<Box>>)
    requires ValidBand(red) && ValidBand(green) && ValidBand(blue) && SameSize(red, green) && SameSize(red, blue)
    requires red.xSize > 0 && |red.lines| > 0 && numColors >= 1
    ensures px == BandCells(red, green, blue, |red.lines|)
    ensures IsList(usedboxes, used) && Partition(px, Boxes(used)) && |used| == Min(numColors, |Colours(px)|)
    ensures History(px, history) && history[|history| - 1] == Boxes(used)
    ensures |Colours(px)| <= numColors ==> forall i :: 0 <= i < |used| ==> Single(used[i].box)
  {
    hide Partition, IsHistogram, BackLinked, IsList, Bounds, CountWhere, Colours, History;
    var freeboxes, ptr, free, all := InitBoxes(numColors);
    var histogram, box;
    histogram, box, px := CollectHistogram(red, green, blue);
    ptr.box := box;
    assert px != [] by {
      assert |px| == |red.lines| * red.xSize;
    }
    InCubeAll(histogram, px);
    WholeBox(px, box);
    OneBox(ptr);
    usedboxes, used, history := SplitAll(histogram, ptr, freeboxes, numColors, px, free, all);
  }

  /** All boxes free but the first one. */
  method InitBoxes(numColors: nat)
    returns (freeboxes: Colorbox?, ptr: Colorbox, ghost free: seq<Colorbox>, ghost all: set<Colorbox>)
    requires numColors >= 1
    ensures fresh(all) && ptr in all && |free| + 1 == numColors
    ensures TwoLists(freeboxes, free, ptr, [ptr], all, numColors)
  {
    hide IsList, BackLinked;
    var box_list, nodes := LinkBoxes(numColors);
    all := set n | n in nodes;
    assert nodes == nodes + [];
    ListHead(box_list, nodes);
    EmptyList();
    var usedboxes;
    freeboxes, usedboxes := TakeBox(box_list, null, nodes, [], all, numColors);
    ptr, free := box_list, nodes[1..];
    assert [ptr] + [] == [ptr];
    TwoHead(usedboxes, ptr);
  }

  lemma EmptyList()
    ensures IsList(null, []) && BackLinked([])
  {
  }

  lemma TwoHead(head: Colorbox?, node: Colorbox)
    requires IsList(head, [node])
    ensures head == node
  {
  }

  lemma InCubeAll(histogram: array3<int>, px: seq<Cell>)
    requires IsHistogram(histogram, px)
    ensures forall c :: c in px ==> InCube(c)
  {
  }

  lemma OneBox(node: Colorbox)
    ensures Boxes([node]) == [node.box]
  {
  }

  /** With colours to spare, the table holds every quantised colour exactly. */
  lemma EveryColourExact(px: seq<Cell>, boxes: seq<Box>, table: seq<ColorEntry>, c: Cell) returns (i: nat)
    requires Partition(px, boxes) && (forall i :: 0 <= i < |boxes| ==> Single(boxes[i])) && c in px
    requires |table| == |boxes| && forall i :: 0 <= i < |table| ==> IsMiddle(px, boxes[i], table[i])
    ensures i < |table| && table[i] == ColorEntry(8 * c.r, 8 * c.g, 8 * c.b, 255)
  {
    hide Disjoint, InBox, IsMiddle, Occupied;
    i :| 0 <= i < |boxes| && InBox(boxes[i], c);
    SingleEntry(px, boxes[i], table[i], c);
  }

  lemma SingleEntry(px: seq<Cell>, box: Box, entry: ColorEntry, c: Cell)
    requires Single(box) && InBox(box, c) && IsMiddle(px, box, entry)
    ensures entry == ColorEntry(8 * c.r, 8 * c.g, 8 * c.b, 255)
  {
    forall d | InBox(box, d)
      ensures d == c
    {
    }
  }

  /** The pixels of the image, line by line, with an eighth of each of their values. */
  lemma {:induction false} CellOfPixel(r: Band, g: Band, b: Band, n: nat, y: nat, x: nat)
    requires ValidBand(r) && ValidBand(g) && ValidBand(b) && SameSize(r, g) && SameSize(r, b) && n <= |r.lines|
    requires y < n && x < r.xSize
    ensures 0 <= y * r.xSize + x < |BandCells(r, g, b, n)|
    ensures var c := BandCells(r, g, b, n)[y * r.xSize + x];
            && 0 <= r.lines[y][x] - 8 * c.r < 8 && 0 <= g.lines[y][x] - 8 * c.g < 8 && 0 <= b.lines[y][x] - 8 * c.b < 8
  {
    if y < n - 1 {
      CellOfPixel(r, g, b, n - 1, y, x);
    } else {
      assert BandCells(r, g, b, n)[y * r.xSize + x] == LineCells(r.lines[y], g.lines[y], b.lines[y])[x];
    }
  }
}

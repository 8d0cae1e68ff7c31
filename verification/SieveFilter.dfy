/** GDALSieveFilter: polygons smaller than a threshold take the value of their
    largest neighbour, provided that neighbour reaches the threshold. */
module SieveFilter {
  import opened Connectivity
  import opened RasterPolygonEnumerator
  import opened RasterBands
  import opened Wrappers

  const GP_NODATA_MARKER: int := -51502112
  const MY_MAX_INT: int := 2147483647

  function IntRule(conn: int): Rule<int> {
    Rule(conn, (a: int, b: int) => a == b, (a: int, b: int) => a == b)
  }

  /** A size as far as a 32-bit counter can hold it. */
  function Saturated(n: nat): int {
    if n > MY_MAX_INT then MY_MAX_INT else n
  }

  // ---------------------------------------------------------------------
  // What is promised.
  // ---------------------------------------------------------------------

  /** The polygon of p. */
  ghost function Polygon(img: seq<seq<int>>, rule: Rule<int>, p: Pixel): set<Pixel> {
    set q | q in Pixels(img) && Connected(img, rule, p, q)
  }

  ghost function Size(img: seq<seq<int>>, rule: Rule<int>, p: Pixel): nat {
    |Polygon(img, rule, p)|
  }

  /** b lies in another polygon than p, adjacent to it, and neither is nodata. */
  ghost predicate Borders(img: seq<seq<int>>, rule: Rule<int>, p: Pixel, b: Pixel) {
    exists a :: BordersAt(img, rule, p, a, b)
  }

  ghost predicate BordersAt(img: seq<seq<int>>, rule: Rule<int>, p: Pixel, a: Pixel, b: Pixel) {
    && InLines(img, p) && InLines(img, a) && InLines(img, b)
    && Connected(img, rule, p, a) && !Connected(img, rule, p, b) && Adjacent(rule.conn, a, b)
    && At(img, a) != GP_NODATA_MARKER && At(img, b) != GP_NODATA_MARKER
  }

  /** Is the polygon of p sieved away? */
  ghost predicate Sieved(img: seq<seq<int>>, rule: Rule<int>, threshold: int, p: Pixel)
    requires InLines(img, p)
  {
    && At(img, p) != GP_NODATA_MARKER
    && Size(img, rule, p) < threshold
    && exists b :: Borders(img, rule, p, b) && Size(img, rule, b) >= threshold
  }

  /** b lies in a neighbour of p's polygon than which no neighbour is larger. */
  ghost predicate LargestNeighbour(img: seq<seq<int>>, rule: Rule<int>, p: Pixel, b: Pixel) {
    && Borders(img, rule, p, b)
    && forall c :: Borders(img, rule, p, c) ==> Saturated(Size(img, rule, c)) <= Saturated(Size(img, rule, b))
  }

  // The order in which neighbours are compared settles which of several equally large ones is taken.

  /** The pixels that a pixel is compared with, in order: those of the lines above and to the left of it. */
  ghost function PairsAt(conn: int, w: nat, p: Pixel): seq<(Pixel, Pixel)> {
    (if p.y > 0 then [(p, Pixel(p.x, p.y - 1))] else [])
    + (if p.y > 0 && p.x > 0 && conn == 8 then [(p, Pixel(p.x - 1, p.y - 1))] else [])
    + (if p.y > 0 && p.x < w - 1 && conn == 8 then [(p, Pixel(p.x + 1, p.y - 1))] else [])
    + (if p.x > 0 then [(p, Pixel(p.x - 1, p.y))] else [])
  }

  /** The pairs that are compared for the pixels before pixel x of line y of a raster of width w, in order. */
  ghost function Pairs(conn: int, w: nat, y: nat, x: nat): seq<(Pixel, Pixel)>
    requires x <= w
    decreases y, x
  {
    if x > 0 then Pairs(conn, w, y, x - 1) + PairsAt(conn, w, Pixel(x - 1, y))
    else if y > 0 then Pairs(conn, w, y - 1, w)
    else []
  }

  /** The neighbour found so far is replaced only by a larger one. */
  ghost function Better(img: seq<seq<int>>, rule: Rule<int>, p: Pixel, found: Option<Pixel>, a: Pixel,
                        b: Pixel): Option<Pixel> {
    if BordersAt(img, rule, p, a, b)
       && (found == None || Saturated(Size(img, rule, found.value)) < Saturated(Size(img, rule, b)))
    then Some(b) else found
  }

  /** The first of the largest neighbours that a sequence of pairs offers to the polygon of p. */
  ghost function Found(img: seq<seq<int>>, rule: Rule<int>, p: Pixel, pairs: seq<(Pixel, Pixel)>): Option<Pixel> {
    if pairs == [] then None else
    var (a, b) := pairs[|pairs| - 1];
    Better(img, rule, p, Better(img, rule, p, Found(img, rule, p, pairs[..|pairs| - 1]), a, b), b, a)
  }

  ghost function Width(img: seq<seq<int>>): nat {
    if img == [] then 0 else |img[0]|
  }

  /** The neighbour that the polygon of p is merged into if it is sieved away. */
  ghost function Chosen(img: seq<seq<int>>, rule: Rule<int>, p: Pixel): Option<Pixel> {
    Found(img, rule, p, Pairs(rule.conn, Width(img), |img|, 0))
  }

  ghost predicate SieveOf(raw: seq<seq<int>>, img: seq<seq<int>>, rule: Rule<int>, threshold: int, out: seq<seq<int>>)
    requires SameShape(raw, img)
  {
    && SameShape(raw, out)
    && (forall p :: InLines(img, p) && !Sieved(img, rule, threshold, p) ==> At(out, p) == At(raw, p))
    && (forall p :: InLines(img, p) && Sieved(img, rule, threshold, p) ==>
          TakesOver(img, rule, threshold, p, Chosen(img, rule, p), At(out, p)))
    && (forall p, q ::
          InLines(img, p) && InLines(img, q) && Connected(img, rule, p, q) && Sieved(img, rule, threshold, p) ==>
            At(out, p) == At(out, q))
  }

  /** The chosen pixel lies in a largest neighbour of p's polygon, at or above the threshold, and value is its value. */
  ghost predicate TakesOver(img: seq<seq<int>>, rule: Rule<int>, threshold: int, p: Pixel, chosen: Option<Pixel>,
                            value: int) {
    && chosen.Some? && LargestNeighbour(img, rule, p, chosen.value)
    && Size(img, rule, chosen.value) >= threshold && value == At(img, chosen.value)
  }

  /** The result is determined by the rasters alone, wherever it is written to. */
  lemma SieveIsUnique(raw: seq<seq<int>>, img: seq<seq<int>>, rule: Rule<int>, threshold: int,
                      out: seq<seq<int>>, out': seq<seq<int>>)
    requires SameShape(raw, img) && SieveOf(raw, img, rule, threshold, out) && SieveOf(raw, img, rule, threshold, out')
    ensures out == out'
  {
    hide Sieved, Chosen, LargestNeighbour, Size;
    forall y, x | 0 <= y < |raw| && 0 <= x < |raw[y]|
      ensures out[y][x] == out'[y][x]
    {
      var p := Pixel(x, y);
      assert InLines(img, p);
      assert At(out, p) == At(out', p);
    }
    forall y | 0 <= y < |raw|
      ensures out[y] == out'[y]
    {
    }
  }

  /** What p's pixels are rewritten with comes from a neighbour than which no neighbour has more pixels. */
  ghost predicate TakesLargest(img: seq<seq<int>>, rule: Rule<int>, p: Pixel, b: Pixel, value: int) {
    && Borders(img, rule, p, b) && value == At(img, b)
    && forall c :: Borders(img, rule, p, c) ==> Size(img, rule, c) <= Size(img, rule, b)
  }

  /**
   * A polygon that is sieved away takes the value of a neighbour than which no neighbour is larger, or of one that has
   * more pixels than a 32-bit counter holds.
   */
  lemma TakesLargestUnlessHuge(raw: seq<seq<int>>, img: seq<seq<int>>, rule: Rule<int>, threshold: int,
                               out: seq<seq<int>>, p: Pixel) returns (b: Pixel)
    requires SameShape(raw, img) && SieveOf(raw, img, rule, threshold, out)
    requires InLines(img, p) && Sieved(img, rule, threshold, p)
    ensures InLines(out, p) && InLines(img, b)
    ensures TakesLargest(img, rule, p, b, At(out, p))
         || (Borders(img, rule, p, b) && At(out, p) == At(img, b) && Size(img, rule, b) >= 2147483647)
  {
    hide Size, Sieved, Borders, Chosen;
    b := Chosen(img, rule, p).value;
    BorderIsPixel(img, rule, p, b);
    if Size(img, rule, b) < 2147483647 {
      forall c | Borders(img, rule, p, c)
        ensures Size(img, rule, c) <= Size(img, rule, b)
      {
        assert Saturated(Size(img, rule, c)) <= Saturated(Size(img, rule, b));
      }
    }
  }

  lemma BorderIsPixel(img: seq<seq<int>>, rule: Rule<int>, p: Pixel, b: Pixel)
    requires Borders(img, rule, p, b)
    ensures InLines(img, p) && InLines(img, b)
  {
  }

  /** In a raster whose pixels a 32-bit counter can count it is always a largest neighbour. */
  lemma SieveTakesLargest(raw: seq<seq<int>>, img: seq<seq<int>>, rule: Rule<int>, threshold: int,
                          out: seq<seq<int>>, p: Pixel) returns (b: Pixel)
    requires SameShape(raw, img) && SieveOf(raw, img, rule, threshold, out)
    requires InLines(img, p) && Sieved(img, rule, threshold, p) && |Pixels(img)| <= 2147483647
    ensures InLines(out, p) && InLines(img, b) && TakesLargest(img, rule, p, b, At(out, p))
  {
    b := TakesLargestUnlessHuge(raw, img, rule, threshold, out, p);
    hide Sieved, SieveOf, Connected, Borders;
    forall c
      ensures Size(img, rule, c) <= 2147483647
    {
      SubsetSize(Polygon(img, rule, c), Pixels(img));
    }
  }

  lemma {:induction false} SubsetSize<T>(a: set<T>, b: set<T>)
    requires a <= b
    ensures |a| <= |b|
  {
    if a != {} {
      var x :| x in a;
      SubsetSize(a - {x}, b - {x});
    }
  }

  /** Pixels with the marker for nodata are never rewritten, nor any that border on nothing else. */
  lemma NodataStays(raw: seq<seq<int>>, img: seq<seq<int>>, rule: Rule<int>, threshold: int, out: seq<seq<int>>,
                    p: Pixel)
    requires SameShape(raw, img) && SieveOf(raw, img, rule, threshold, out) && InLines(img, p)
    requires At(img, p) == -51502112 || forall b :: Borders(img, rule, p, b) ==> At(img, b) == -51502112
    ensures InLines(out, p) && At(out, p) == At(raw, p)
  {
    hide Size, Chosen;
    assert !Sieved(img, rule, threshold, p);
  }

  // ---------------------------------------------------------------------
  // Counting pixels by id.
  // ---------------------------------------------------------------------

  /** The pixels that were given the raw id k. */
  ghost function Holders(ids: seq<seq<nat>>, k: nat): set<Pixel> {
    set p | p in Pixels(ids) && At(ids, p) == k
  }

  lemma HoldersEmptyLine(ids: seq<seq<nat>>, k: nat)
    ensures Holders(ids + [[]], k) == Holders(ids, k)
  {
  }

  lemma GrowLine(ids: seq<seq<nat>>, cur: seq<nat>, k: nat, p: Pixel)
    ensures InLines(ids + [cur + [k]], p) <==> InLines(ids + [cur], p) || p == Pixel(|cur|, |ids|)
    ensures InLines(ids + [cur], p) ==> At(ids + [cur + [k]], p) == At(ids + [cur], p)
  {
    if 0 <= p.y < |ids| {
      assert (ids + [cur + [k]])[p.y] == (ids + [cur])[p.y];
    }
  }

  lemma HoldersGrow(ids: seq<seq<nat>>, cur: seq<nat>, k0: nat, k: nat)
    ensures |Holders(ids + [cur + [k0]], k)| == |Holders(ids + [cur], k)| + if k == k0 then 1 else 0
  {
    var p := Pixel(|cur|, |ids|);
    var before, after := Holders(ids + [cur], k), Holders(ids + [cur + [k0]], k);
    forall q
      ensures q in after <==> q in before || (q == p && k == k0)
    {
      GrowLine(ids, cur, k0, q);
      assert At(ids + [cur + [k0]], p) == k0;
    }
    assert p !in before;
    assert after == before + if k == k0 then {p} else {};
  }

  lemma FreshIdUnheld(ids: seq<seq<nat>>, k: nat)
    requires forall p :: InLines(ids, p) ==> At(ids, p) < k
    ensures Holders(ids, k) == {}
  {
  }

  /** Pixels counted for the root r when the fragments below j have been pushed. */
  ghost function Gathered(ids: seq<seq<nat>>, map_: seq<nat>, j: nat, r: nat): set<Pixel>
    requires forall p :: InLines(ids, p) ==> At(ids, p) < |map_|
  {
    set p | p in Pixels(ids) && (At(ids, p) == r || (At(ids, p) < j && map_[At(ids, p)] == r))
  }

  lemma GatherStep(ids: seq<seq<nat>>, map_: seq<nat>, j: nat, r: nat)
    requires forall p :: InLines(ids, p) ==> At(ids, p) < |map_|
    requires IsFlat(map_) && j < |map_| && r < |map_| && map_[r] == r
    ensures |Gathered(ids, map_, j + 1, r)|
         == |Gathered(ids, map_, j, r)| + if j != r && map_[j] == r then |Holders(ids, j)| else 0
  {
    var before, after := Gathered(ids, map_, j, r), Gathered(ids, map_, j + 1, r);
    if j != r && map_[j] == r {
      assert after == before + Holders(ids, j);
      assert before !! Holders(ids, j);
    } else {
      assert after == before;
    }
  }

  // ---------------------------------------------------------------------
  // The passes over the raster.
  // ---------------------------------------------------------------------

  ghost function MaskLines(mask: RasterBand?): Option<seq<seq<int>>>
    reads mask
  {
    if mask == null then None else Some(mask.lines)
  }

  ghost predicate WellShaped(src: RasterBand, mask: RasterBand?)
    reads src, mask
  {
    && src.Valid()
    && (mask != null ==> SameShape(src.lines, mask.lines))
  }

  /** Lines row and below still hold what they held when the filter was called. */
  ghost predicate Intact(src: RasterBand, mask: RasterBand?, raw: seq<seq<int>>, maskRaw: Option<seq<seq<int>>>,
                         row: nat)
    reads src, mask
  {
    && WellShaped(src, mask)
    && |src.lines| == |raw|
    && (mask == null <==> maskRaw.None?)
    && (maskRaw.Some? ==> SameShape(raw, maskRaw.value))
    && forall y :: row <= y < |raw| ==> src.lines[y] == raw[y] && (mask != null ==> mask.lines[y] == maskRaw.value[y])
  }

  method ReadMasked(src: RasterBand, mask: RasterBand?, row: nat, ghost raw: seq<seq<int>>,
                    ghost maskRaw: Option<seq<seq<int>>>)
    returns (line: seq<int>, masked: seq<int>)
    requires Intact(src, mask, raw, maskRaw, row) && row < |raw|
    ensures line == raw[row] && |line| == src.xSize && masked == Masked(raw, maskRaw, GP_NODATA_MARKER)[row]
  {
    line := src.ReadLine(row);
    masked := line;
    if mask != null {
      var maskLine := mask.ReadLine(row);
      masked := GPMaskImageData(maskLine, masked, GP_NODATA_MARKER);
    }
  }

  /** Sizes of the raw fragments, as far as an int can count. */
  ghost predicate FragmentSizes(ids: seq<seq<nat>>, sizes: seq<int>) {
    forall k :: 0 <= k < |sizes| ==> sizes[k] == Saturated(|Holders(ids, k)|)
  }

  method CountLine(thisLineId: array<int>, polySizes: seq<int>, ghost ids: seq<seq<nat>>, ghost line: seq<nat>)
    returns (sizes: seq<int>)
    requires FragmentSizes(ids, polySizes)
    requires thisLineId[..] == line && forall i :: 0 <= i < |line| ==> line[i] < |polySizes|
    ensures |sizes| == |polySizes| && FragmentSizes(ids + [line], sizes)
  {
    sizes := polySizes;
    forall k | 0 <= k < |sizes|
      ensures Holders(ids + [line[..0]], k) == Holders(ids, k)
    {
      HoldersEmptyLine(ids, k);
      assert line[..0] == [];
    }
    for col := 0 to thisLineId.Length
      invariant |sizes| == |polySizes| && FragmentSizes(ids + [line[..col]], sizes)
    {
      assert thisLineId[col] == line[col];
      var poly := thisLineId[col];
      forall k: nat | k < |sizes|
        ensures |Holders(ids + [line[..col + 1]], k)| == |Holders(ids + [line[..col]], k)| + if k == poly then 1 else 0
      {
        assert line[..col + 1] == line[..col] + [poly];
        HoldersGrow(ids, line[..col], poly, k);
      }
      if sizes[poly] < MY_MAX_INT {
        sizes := sizes[poly := sizes[poly] + 1];
      }
    }
    assert line[..thisLineId.Length] == line;
  }

  lemma NoFragments()
    ensures FragmentSizes([], [])
  {
  }

  lemma NewFragments(ids: seq<seq<nat>>, sizes: seq<int>, n: nat)
    requires FragmentSizes(ids, sizes) && |sizes| <= n
    requires forall p :: InLines(ids, p) ==> At(ids, p) < |sizes|
    ensures FragmentSizes(ids, sizes + seq(n - |sizes|, _ => 0))
  {
    forall k | |sizes| <= k < n
      ensures Holders(ids, k) == {}
    {
      FreshIdUnheld(ids, k);
    }
  }

  /** Gives ids to one line and counts its pixels. */
  method NextOfFirstPass(src: RasterBand, mask: RasterBand?, firstEnum: GDALRasterPolygonEnumerator<int>,
                         polySizes: seq<int>, lastLineVal: Option<seq<int>>, lastLineId: array<int>,
                         thisLineId: array<int>, row: nat, ghost rule: Rule<int>, ghost raw: seq<seq<int>>,
                         ghost maskRaw: Option<seq<seq<int>>>)
    returns (lineVal: Option<seq<int>>, sizes: seq<int>)
    requires Intact(src, mask, raw, maskRaw, 0) && row < |raw|
    requires lastLineId != thisLineId && lastLineId.Length == thisLineId.Length == src.xSize
    requires Replaying(firstEnum, rule, Masked(raw, maskRaw, GP_NODATA_MARKER), row, lastLineVal, lastLineId, 0)
    requires |polySizes| == |firstEnum.polyIdMap| && FragmentSizes(firstEnum.lineIds, polySizes)
    modifies firstEnum, thisLineId
    ensures Replaying(firstEnum, rule, Masked(raw, maskRaw, GP_NODATA_MARKER), row + 1, lineVal, thisLineId, 0)
    ensures |sizes| == |firstEnum.polyIdMap| && FragmentSizes(firstEnum.lineIds, sizes)
  {
    hide Enumerated, RootsAre, RawMerges, Masked, FragmentSizes;
    var _, thisLineVal := ReadMasked(src, mask, row, raw, maskRaw);
    ghost var ids := firstEnum.lineIds;
    IdsBelow(firstEnum);
    NextLineIds(firstEnum, lastLineVal, thisLineVal, lastLineId, thisLineId, 0, rule,
                Masked(raw, maskRaw, GP_NODATA_MARKER), row);
    assert thisLineId[..] == thisLineId[0..src.xSize];
    NewFragments(ids, polySizes, |firstEnum.polyIdMap|);
    sizes := polySizes + seq(|firstEnum.polyIdMap| - |polySizes|, _ => 0);
    sizes := CountLine(thisLineId, sizes, ids, firstEnum.lineIds[row]);
    lineVal := Some(thisLineVal);
  }

  method FirstPass(src: RasterBand, mask: RasterBand?, connectedness: int,
                   ghost raw: seq<seq<int>>, ghost maskRaw: Option<seq<seq<int>>>)
    returns (firstEnum: GDALRasterPolygonEnumerator<int>, polySizes: seq<int>)
    requires connectedness == 4 || connectedness == 8
    requires Intact(src, mask, raw, maskRaw, 0)
    ensures fresh(firstEnum) && firstEnum.Valid()
    ensures firstEnum.rule == IntRule(connectedness) && firstEnum.lines == Masked(raw, maskRaw, GP_NODATA_MARKER)
    ensures |polySizes| == |firstEnum.polyIdMap| && FragmentSizes(firstEnum.lineIds, polySizes)
  {
    hide Enumerated, RootsAre, RawMerges, Masked, FragmentSizes;
    var rule := IntRule(connectedness);
    ghost var img := Masked(raw, maskRaw, GP_NODATA_MARKER);
    NoFragments();
    firstEnum := new GDALRasterPolygonEnumerator(rule);
    polySizes := [];
    var lastLineId, thisLineId := new int[src.xSize], new int[src.xSize];
    var lastLineVal := None;
    var ySize := |src.lines|;
    var row := 0;
    while row < ySize
      invariant fresh(firstEnum) && fresh(lastLineId) && fresh(thisLineId)
      invariant lastLineId != thisLineId && lastLineId.Length == thisLineId.Length == src.xSize
      invariant Replaying(firstEnum, rule, img, row, lastLineVal, lastLineId, 0)
      invariant |polySizes| == |firstEnum.polyIdMap| && FragmentSizes(firstEnum.lineIds, polySizes)
    {
      lastLineVal, polySizes := NextOfFirstPass(src, mask, firstEnum, polySizes, lastLineVal, lastLineId, thisLineId,
                                                row, rule, raw, maskRaw);
      lastLineId, thisLineId := thisLineId, lastLineId;
      row := row + 1;
    }
    assert img[..row] == img;
  }

  // ---------------------------------------------------------------------
  // Final ids, sizes and neighbours.
  // ---------------------------------------------------------------------

  /** What the first pass leaves behind: map_ sends every raw id to the final id
      of its polygon. */
  ghost predicate FinalIds(img: seq<seq<int>>, rule: Rule<int>, map_: seq<nat>, values: seq<int>, ids: seq<seq<nat>>) {
    && SameShape(img, ids) && IsFlat(map_) && |values| == |map_|
    && (forall p :: InLines(ids, p) ==> At(ids, p) < |map_|)
    && (forall p, q :: InLines(ids, p) && InLines(ids, q) ==>
          (map_[At(ids, p)] == map_[At(ids, q)] <==> Connected(img, rule, p, q)))
    && (forall p :: InLines(ids, p) ==> values[map_[At(ids, p)]] == At(img, p))
  }

  lemma ConnectedSameValue(img: seq<seq<int>>, conn: int, p: Pixel, q: Pixel)
    requires Connected(img, IntRule(conn), p, q)
    ensures InLines(img, p) && InLines(img, q) && At(img, p) == At(img, q)
  {
    var path :| Joins(img, IntRule(conn), path, p, q);
    PathInLines(img, IntRule(conn), path);
    var value: Pixel -> int := r => if InLines(img, r) then At(img, r) else 0;
    ConstantAlongPath(img, IntRule(conn), value, path);
  }

  lemma FinalIdsEstablished(e: GDALRasterPolygonEnumerator<int>, conn: int)
    requires e.Valid() && e.Flat() && e.rule == IntRule(conn)
    ensures FinalIds(e.lines, e.rule, e.polyIdMap, e.polyValue, e.lineIds)
  {
    IdsBelow(e);
    forall p, q | InLines(e.lineIds, p) && InLines(e.lineIds, q)
      ensures e.polyIdMap[At(e.lineIds, p)] == e.polyIdMap[At(e.lineIds, q)] <==> Connected(e.lines, e.rule, p, q)
    {
      SamePolygon(e, p, q);
    }
    forall p | InLines(e.lineIds, p)
      ensures e.polyValue[e.polyIdMap[At(e.lineIds, p)]] == At(e.lines, p)
    {
      var w := FinalIdWitness(e, e.polyIdMap[At(e.lineIds, p)]);
      SamePolygon(e, w, p);
      ConnectedSameValue(e.lines, conn, w, p);
    }
  }

  /** All pixels whose polygon has the final id r. */
  ghost function FinalHolders(ids: seq<seq<nat>>, map_: seq<nat>, r: nat): set<Pixel>
    requires forall p :: InLines(ids, p) ==> At(ids, p) < |map_|
  {
    set p | p in Pixels(ids) && At(ids, p) < |map_| && map_[At(ids, p)] == r
  }

  ghost predicate PolygonSizes(ids: seq<seq<nat>>, map_: seq<nat>, sizes: seq<int>)
    requires forall p :: InLines(ids, p) ==> At(ids, p) < |map_|
  {
    forall r :: 0 <= r < |sizes| && r < |map_| && map_[r] == r ==> sizes[r] == Saturated(|FinalHolders(ids, map_, r)|)
  }

  /** Sizes once the fragments below j have been pushed into their final ids. */
  ghost predicate Pushed(ids: seq<seq<nat>>, map_: seq<nat>, j: nat, sizes: seq<int>)
    requires forall p :: InLines(ids, p) ==> At(ids, p) < |map_|
  {
    && |sizes| == |map_|
    && (forall r :: 0 <= r < |sizes| && map_[r] == r ==> sizes[r] == Saturated(|Gathered(ids, map_, j, r)|))
    && (forall k :: j <= k < |sizes| && map_[k] != k ==> sizes[k] == Saturated(|Holders(ids, k)|))
  }

  lemma PushOne(ids: seq<seq<nat>>, map_: seq<nat>, j: nat, sizes: seq<int>, sizes': seq<int>)
    requires forall p :: InLines(ids, p) ==> At(ids, p) < |map_|
    requires IsFlat(map_) && j < |map_| && Pushed(ids, map_, j, sizes)
    requires sizes' == if map_[j] == j then sizes
                       else sizes[map_[j] := if sizes[map_[j]] + sizes[j] > MY_MAX_INT then MY_MAX_INT
                                             else sizes[map_[j]] + sizes[j]][j := 0]
    ensures Pushed(ids, map_, j + 1, sizes')
  {
    forall r: nat | r < |map_| && map_[r] == r
      ensures sizes'[r] == Saturated(|Gathered(ids, map_, j + 1, r)|)
    {
      GatherStep(ids, map_, j, r);
    }
  }

  /** Pushes the sizes of merged fragments into the final ids. */
  method PushSizes(polyIdMap: seq<nat>, polySizes: seq<int>, ghost ids: seq<seq<nat>>) returns (sizes: seq<int>)
    requires IsFlat(polyIdMap) && |polySizes| == |polyIdMap| && FragmentSizes(ids, polySizes)
    requires forall p :: InLines(ids, p) ==> At(ids, p) < |polyIdMap|
    ensures |sizes| == |polySizes| && PolygonSizes(ids, polyIdMap, sizes)
  {
    hide FragmentSizes, Pushed, PolygonSizes;
    sizes := polySizes;
    NothingPushed(ids, polyIdMap, sizes);
    for poly := 0 to |polyIdMap|
      invariant |sizes| == |polyIdMap| && Pushed(ids, polyIdMap, poly, sizes)
    {
      ghost var before := sizes;
      if polyIdMap[poly] != poly {
        var total := sizes[polyIdMap[poly]];
        total := total + sizes[poly];
        if total > MY_MAX_INT {
          total := MY_MAX_INT;
        }
        sizes := sizes[polyIdMap[poly] := total];
        sizes := sizes[poly := 0];
      }
      PushOne(ids, polyIdMap, poly, before, sizes);
    }
    AllPushed(ids, polyIdMap, sizes);
  }

  lemma NothingPushed(ids: seq<seq<nat>>, map_: seq<nat>, sizes: seq<int>)
    requires forall p :: InLines(ids, p) ==> At(ids, p) < |map_|
    requires |sizes| == |map_| && FragmentSizes(ids, sizes)
    ensures Pushed(ids, map_, 0, sizes)
  {
    forall r: nat | r < |map_|
      ensures Gathered(ids, map_, 0, r) == Holders(ids, r)
    {
    }
  }

  lemma AllPushed(ids: seq<seq<nat>>, map_: seq<nat>, sizes: seq<int>)
    requires IsFlat(map_) && forall p :: InLines(ids, p) ==> At(ids, p) < |map_|
    requires Pushed(ids, map_, |map_|, sizes)
    ensures PolygonSizes(ids, map_, sizes)
  {
    forall r: nat | r < |sizes| && map_[r] == r
      ensures Gathered(ids, map_, |map_|, r) == FinalHolders(ids, map_, r)
    {
    }
  }

  /** p and q are adjacent pixels of the different valid polygons a and b. */
  ghost predicate TouchAt(conn: int, map_: seq<nat>, values: seq<int>, ids: seq<seq<nat>>, p: Pixel, q: Pixel,
                          a: nat, b: nat) {
    && InLines(ids, p) && InLines(ids, q) && Adjacent(conn, p, q)
    && At(ids, p) < |map_| && At(ids, q) < |map_| && map_[At(ids, p)] == a && map_[At(ids, q)] == b
    && a != b && a < |values| && b < |values| && values[a] != GP_NODATA_MARKER && values[b] != GP_NODATA_MARKER
  }

  ghost predicate Touch(conn: int, map_: seq<nat>, values: seq<int>, ids: seq<seq<nat>>, a: nat, b: nat) {
    exists p, q :: TouchAt(conn, map_, values, ids, p, q, a, b)
  }

  /** big[k] is a largest polygon among those compared with k so far; -1 if there were none. */
  ghost predicate Largest(big: seq<int>, sizes: seq<int>, seen: set<(nat, nat)>) {
    && |big| == |sizes|
    && (forall a, b :: (a, b) in seen ==> a < |big| && b < |big|)
    && (forall k: nat :: k < |big| && big[k] != -1 ==> 0 <= big[k] < |big| && (k, big[k]) in seen)
    && (forall k: nat, b :: k < |big| && (k, b) in seen ==>
          big[k] != -1 && 0 <= big[k] < |big| && sizes[b] <= sizes[big[k]])
  }

  function Compared(map_: seq<nat>, values: seq<int>, polyId1: nat, polyId2: nat): (r: set<(nat, nat)>)
    requires polyId1 < |map_| == |values| && polyId2 < |map_| && IsFlat(map_)
  {
    var a, b := map_[polyId1], map_[polyId2];
    if a == b || values[a] == GP_NODATA_MARKER || values[b] == GP_NODATA_MARKER then {} else {(a, b), (b, a)}
  }

  predicate InRange(big: seq<int>) {
    forall k :: 0 <= k < |big| ==> big[k] == -1 || 0 <= big[k] < |big|
  }

  /** b becomes the neighbour of polygon a if a has none or only a smaller one. */
  function Offer(big: seq<int>, sizes: seq<int>, a: nat, b: nat): (r: seq<int>)
    requires |big| == |sizes| && a < |big| && b < |big| && InRange(big)
    ensures |r| == |big| && InRange(r)
  {
    if big[a] == -1 || sizes[big[a]] < sizes[b] then big[a := b] else big
  }

  function Compare(map_: seq<nat>, values: seq<int>, sizes: seq<int>, big: seq<int>, polyId1: nat,
                   polyId2: nat): (r: seq<int>)
    requires IsFlat(map_) && |map_| == |values| == |sizes| == |big| && polyId1 < |map_| && polyId2 < |map_| &&
             InRange(big)
    ensures |r| == |big| && InRange(r)
  {
    var a, b := map_[polyId1], map_[polyId2];
    if a == b || values[a] == GP_NODATA_MARKER || values[b] == GP_NODATA_MARKER then big
    else Offer(Offer(big, sizes, a, b), sizes, b, a)
  }

  lemma CompareKeepsLargest(map_: seq<nat>, values: seq<int>, sizes: seq<int>, big: seq<int>, seen: set<(nat, nat)>,
                            polyId1: nat, polyId2: nat)
    requires IsFlat(map_) && |map_| == |values| == |sizes| && polyId1 < |map_| && polyId2 < |map_|
    requires Largest(big, sizes, seen) && InRange(big) && |big| == |sizes|
    ensures Largest(Compare(map_, values, sizes, big, polyId1, polyId2), sizes,
                    seen + Compared(map_, values, polyId1, polyId2))
  {
    var a, b := map_[polyId1], map_[polyId2];
    if a == b || values[a] == GP_NODATA_MARKER || values[b] == GP_NODATA_MARKER {
      assert seen + {} == seen;
    } else {
      OfferKeepsLargest(big, sizes, seen, a, b);
      OfferKeepsLargest(Offer(big, sizes, a, b), sizes, seen + {(a, b)}, b, a);
      assert seen + {(a, b)} + {(b, a)} == seen + {(a, b), (b, a)};
    }
  }

  lemma OfferKeepsLargest(big: seq<int>, sizes: seq<int>, seen: set<(nat, nat)>, a: nat, b: nat)
    requires Largest(big, sizes, seen) && InRange(big) && |big| == |sizes| && a < |big| && b < |big|
    ensures Largest(Offer(big, sizes, a, b), sizes, seen + {(a, b)})
  {
  }

  lemma LargestInRange(big: seq<int>, sizes: seq<int>, seen: set<(nat, nat)>)
    requires Largest(big, sizes, seen)
    ensures |big| == |sizes| && InRange(big)
  {
  }

  method CompareNeighbour(polyId1: nat, polyId2: nat, polyIdMap: seq<nat>, polyValue: seq<int>,
                          polySizes: seq<int>, bigNeighbour: seq<int>, ghost seen: set<(nat, nat)>)
    returns (big: seq<int>)
    requires IsFlat(polyIdMap) && |polyIdMap| == |polyValue| == |polySizes|
    requires polyId1 < |polyIdMap| && polyId2 < |polyIdMap|
    requires Largest(bigNeighbour, polySizes, seen)
    ensures Largest(big, polySizes, seen + Compared(polyIdMap, polyValue, polyId1, polyId2))
    ensures |bigNeighbour| == |polySizes| && InRange(bigNeighbour)
    ensures big == Compare(polyIdMap, polyValue, polySizes, bigNeighbour, polyId1, polyId2)
  {
    LargestInRange(bigNeighbour, polySizes, seen);
    CompareKeepsLargest(polyIdMap, polyValue, polySizes, bigNeighbour, seen, polyId1, polyId2);
    hide Largest;
    big := bigNeighbour;
    var id1, id2 := polyIdMap[polyId1], polyIdMap[polyId2];
    if id1 == id2 {
      return;
    }
    if polyValue[id1] == GP_NODATA_MARKER || polyValue[id2] == GP_NODATA_MARKER {
      return;
    }
    if big[id1] == -1 || polySizes[big[id1]] < polySizes[id2] {
      big := big[id1 := id2];
    }
    if big[id2] == -1 || polySizes[big[id2]] < polySizes[id1] {
      big := big[id2 := id1];
    }
  }

  // ---------------------------------------------------------------------
  // Second pass: the largest neighbour of every polygon.
  // ---------------------------------------------------------------------

  /** Final ids of a raster, as the second and third pass use them. */
  datatype Final = Final(conn: int, map_: seq<nat>, values: seq<int>, ids: seq<seq<nat>>)

  ghost predicate ValidFinal(f: Final) {
    && IsFlat(f.map_) && |f.values| == |f.map_|
    && Rectangular(f.ids)
    && forall p :: InLines(f.ids, p) ==> At(f.ids, p) < |f.map_|
  }

  /** The final id of p's polygon. */
  ghost function FinalId(f: Final, p: Pixel): nat
    requires ValidFinal(f) && InLines(f.ids, p)
  {
    f.map_[At(f.ids, p)]
  }

  /** The largest neighbours, first come first served, after the comparison of the pairs. */
  ghost function Bigs(f: Final, sizes: seq<int>, pairs: seq<(Pixel, Pixel)>): (r: seq<int>)
    requires ValidFinal(f) && |sizes| == |f.map_|
    ensures |r| == |sizes| && InRange(r)
  {
    if pairs == [] then seq(|sizes|, _ => -1) else
    var big := Bigs(f, sizes, pairs[..|pairs| - 1]);
    var (p, q) := pairs[|pairs| - 1];
    if InLines(f.ids, p) && InLines(f.ids, q) then Compare(f.map_, f.values, sizes, big, At(f.ids, p), At(f.ids, q))
        else big
  }

  lemma BigsNext(f: Final, sizes: seq<int>, pairs: seq<(Pixel, Pixel)>, p: Pixel, q: Pixel)
    requires ValidFinal(f) && |sizes| == |f.map_| && InLines(f.ids, p) && InLines(f.ids, q)
    ensures Bigs(f, sizes, pairs + [(p, q)])
         == Compare(f.map_, f.values, sizes, Bigs(f, sizes, pairs), At(f.ids, p), At(f.ids, q))
  {
    assert (pairs + [(p, q)])[..|pairs|] == pairs;
  }

  ghost predicate Scanned(p: Pixel, y: int, i: int) {
    p.y < y || (p.y == y && p.x < i)
  }

  ghost predicate SeenSound(f: Final, seen: set<(nat, nat)>) {
    forall a, b :: (a, b) in seen ==> Touch(f.conn, f.map_, f.values, f.ids, a, b)
  }

  /** All adjacent pixels scanned before pixel i of line y have been compared. */
  ghost predicate SeenUpTo(f: Final, seen: set<(nat, nat)>, y: int, i: int)
    requires ValidFinal(f)
  {
    forall p, q :: InLines(f.ids, p) && InLines(f.ids, q) && Scanned(p, y, i) && Scanned(q, y, i) &&
        Adjacent(f.conn, p, q)
      ==> Compared(f.map_, f.values, At(f.ids, p), At(f.ids, q)) <= seen
  }

  lemma CompareIsSound(f: Final, seen: set<(nat, nat)>, p: Pixel, q: Pixel)
    requires ValidFinal(f) && SeenSound(f, seen)
    requires InLines(f.ids, p) && InLines(f.ids, q) && Adjacent(f.conn, p, q)
    ensures SeenSound(f, seen + Compared(f.map_, f.values, At(f.ids, p), At(f.ids, q)))
  {
    var a, b := FinalId(f, p), FinalId(f, q);
    if Compared(f.map_, f.values, At(f.ids, p), At(f.ids, q)) != {} {
      assert TouchAt(f.conn, f.map_, f.values, f.ids, p, q, a, b);
      assert TouchAt(f.conn, f.map_, f.values, f.ids, q, p, b, a);
    }
  }

  lemma PixelCompared(f: Final, seen: set<(nat, nat)>, seen': set<(nat, nat)>, y: nat, i: nat)
    requires ValidFinal(f) && (f.conn == 4 || f.conn == 8) && InLines(f.ids, Pixel(i, y))
    requires SeenUpTo(f, seen, y, i) && seen <= seen'
    requires forall q :: InLines(f.ids, q) && Behind(f.conn, Pixel(i, y), q)
               ==> Compared(f.map_, f.values, At(f.ids, Pixel(i, y)), At(f.ids, q)) <= seen'
    ensures SeenUpTo(f, seen', y, i + 1)
  {
    var r := Pixel(i, y);
    forall p, q | InLines(f.ids, p) && InLines(f.ids, q) && Scanned(p, y, i + 1) && Scanned(q, y, i + 1) &&
        Adjacent(f.conn, p, q)
      ensures Compared(f.map_, f.values, At(f.ids, p), At(f.ids, q)) <= seen'
    {
      if p == r {
        assert Behind(f.conn, r, q);
      } else if q == r {
        assert Behind(f.conn, r, p);
        assert Compared(f.map_, f.values, At(f.ids, p), At(f.ids, q)) ==
               Compared(f.map_, f.values, At(f.ids, q), At(f.ids, p));
      } else {
        assert Scanned(p, y, i) && Scanned(q, y, i);
      }
    }
  }

  /** Compares a pixel with one neighbour, if that neighbour exists. */
  method CompareIf(exists_: bool, thisId: nat, otherId: nat, polyIdMap: seq<nat>, polyValue: seq<int>,
                   polySizes: seq<int>, bigNeighbour: seq<int>,
                   ghost f: Final, ghost seen: set<(nat, nat)>, ghost pairs: seq<(Pixel, Pixel)>, ghost p: Pixel,
                   ghost q: Pixel)
    returns (big: seq<int>, ghost seen': set<(nat, nat)>, ghost pairs': seq<(Pixel, Pixel)>)
    requires ValidFinal(f) && f.map_ == polyIdMap && f.values == polyValue && |polySizes| == |polyIdMap|
    requires InLines(f.ids, p) && thisId == At(f.ids, p)
    requires exists_ ==> InLines(f.ids, q) && otherId == At(f.ids, q) && Adjacent(f.conn, p, q)
    requires Largest(bigNeighbour, polySizes, seen) && SeenSound(f, seen)
    ensures Largest(big, polySizes, seen') && SeenSound(f, seen') && seen <= seen'
    ensures exists_ ==> Compared(f.map_, f.values, thisId, otherId) <= seen'
    ensures pairs' == pairs + if exists_ then [(p, q)] else []
    ensures bigNeighbour == Bigs(f, polySizes, pairs) ==> big == Bigs(f, polySizes, pairs')
  {
    big, seen', pairs' := bigNeighbour, seen, pairs;
    if exists_ {
      BigsNext(f, polySizes, pairs, p, q);
      pairs' := pairs + [(p, q)];
      big := CompareNeighbour(thisId, otherId, polyIdMap, polyValue, polySizes, big, seen);
      CompareIsSound(f, seen, p, q);
      seen' := seen + Compared(f.map_, f.values, thisId, otherId);
    }
  }

  lemma PairsNext(conn: int, w: nat, x: nat, y: nat, pairs: seq<(Pixel, Pixel)>, c1: bool, c2: bool, c3: bool, c4: bool)
    requires x < w && pairs == Pairs(conn, w, y, x)
    requires c1 == (y > 0) && c2 == (y > 0 && x > 0 && conn == 8) && c3 == (y > 0 && x < w - 1 && conn == 8) &&
             c4 == (x > 0)
    ensures var p := Pixel(x, y);
            Pairs(conn, w, y, x + 1) ==
            (((pairs + if c1 then [(p, Pixel(x, y - 1))] else []) + if c2 then [(p, Pixel(x - 1, y - 1))] else [])
              + if c3 then [(p, Pixel(x + 1, y - 1))] else []) + if c4 then [(p, Pixel(x - 1, y))] else []
  {
  }

  method ComparePixel(thisLineId: array<int>, lastLineId: array<int>, col: nat, row: nat, connectedness: int,
                      polyIdMap: seq<nat>, polyValue: seq<int>, polySizes: seq<int>, bigNeighbour: seq<int>,
                      ghost f: Final, ghost seen: set<(nat, nat)>)
    returns (big: seq<int>, ghost seen': set<(nat, nat)>)
    requires ValidFinal(f) && f.map_ == polyIdMap && f.values == polyValue && |polySizes| == |polyIdMap|
    requires f.conn == connectedness && (connectedness == 4 || connectedness == 8)
    requires row < |f.ids| && col < |f.ids[row]| && thisLineId[..] == f.ids[row] &&
             (row > 0 ==> lastLineId[..] == f.ids[row - 1])
    requires Largest(bigNeighbour, polySizes, seen) && SeenSound(f, seen) && SeenUpTo(f, seen, row, col)
    requires bigNeighbour == Bigs(f, polySizes, Pairs(f.conn, |f.ids[row]|, row, col))
    ensures Largest(big, polySizes, seen') && SeenSound(f, seen') && SeenUpTo(f, seen', row, col + 1)
    ensures big == Bigs(f, polySizes, Pairs(f.conn, |f.ids[row]|, row, col + 1))
  {
    hide Largest, SeenSound, SeenUpTo, Compared, Bigs, Pairs;
    ghost var pairs := Pairs(f.conn, |f.ids[row]|, row, col);
    ghost var pairs0 := pairs;
    var xSize := thisLineId.Length;
    ghost var p := Pixel(col, row);
    assert |f.ids[row]| == |f.ids[0]| && (row > 0 ==> |f.ids[row - 1]| == |f.ids[0]|);
    assert row > 0 ==> lastLineId.Length == xSize;
    var id := thisLineId[col];
    var c1, c2, c3, c4 := row > 0, row > 0 && col > 0 && connectedness == 8,
                          row > 0 && col < xSize - 1 && connectedness == 8, col > 0;
    big, seen', pairs := CompareIf(c1, id, if c1 then lastLineId[col] else 0, polyIdMap, polyValue, polySizes,
                            bigNeighbour, f, seen, pairs, p, Pixel(col, row - 1));
    big, seen', pairs := CompareIf(c2, id, if c2 then lastLineId[col - 1] else 0, polyIdMap, polyValue, polySizes,
                            big, f, seen', pairs, p, Pixel(col - 1, row - 1));
    big, seen', pairs := CompareIf(c3, id, if c3 then lastLineId[col + 1] else 0, polyIdMap, polyValue, polySizes,
                            big, f, seen', pairs, p, Pixel(col + 1, row - 1));
    big, seen', pairs := CompareIf(c4, id, if c4 then thisLineId[col - 1] else 0, polyIdMap, polyValue, polySizes,
                            big, f, seen', pairs, p, Pixel(col - 1, row));
    PixelCompared(f, seen, seen', row, col);
    PairsNext(f.conn, xSize, col, row, pairs0, c1, c2, c3, c4);
  }

  ghost function FinalOf(e: GDALRasterPolygonEnumerator<int>): Final
    reads e
  {
    Final(e.rule.conn, e.polyIdMap, e.polyValue, e.lineIds)
  }

  /** The first pass is over: firstEnum knows the final ids of the raster img. */
  ghost predicate FirstPassDone(e: GDALRasterPolygonEnumerator<int>, conn: int, img: seq<seq<int>>)
    reads e
  {
    && (conn == 4 || conn == 8)
    && e.Valid() && e.Flat() && e.rule == IntRule(conn) && e.lines == img
  }

  lemma FinalOfFirst(e: GDALRasterPolygonEnumerator<int>, conn: int, img: seq<seq<int>>)
    requires FirstPassDone(e, conn, img)
    ensures ValidFinal(FinalOf(e)) && FinalOf(e).conn == conn && SameShape(img, e.lineIds)
    ensures FinalIds(img, IntRule(conn), e.polyIdMap, e.polyValue, e.lineIds)
  {
    IdsBelow(e);
    FinalIdsEstablished(e, conn);
  }

  method CompareLine(thisLineId: array<int>, lastLineId: array<int>, row: nat, connectedness: int,
                     polyIdMap: seq<nat>, polyValue: seq<int>, polySizes: seq<int>, bigNeighbour: seq<int>,
                     ghost f: Final, ghost seen: set<(nat, nat)>)
    returns (big: seq<int>, ghost seen': set<(nat, nat)>)
    requires ValidFinal(f) && f.map_ == polyIdMap && f.values == polyValue && |polySizes| == |polyIdMap|
    requires f.conn == connectedness && (connectedness == 4 || connectedness == 8)
    requires row < |f.ids| && thisLineId[..] == f.ids[row] && (row > 0 ==> lastLineId[..] == f.ids[row - 1])
    requires Largest(bigNeighbour, polySizes, seen) && SeenSound(f, seen) && SeenUpTo(f, seen, row, 0)
    requires bigNeighbour == Bigs(f, polySizes, Pairs(f.conn, |f.ids[row]|, row, 0))
    ensures Largest(big, polySizes, seen') && SeenSound(f, seen') && SeenUpTo(f, seen', row + 1, 0)
    ensures big == Bigs(f, polySizes, Pairs(f.conn, |f.ids[row]|, row + 1, 0))
  {
    hide Largest, SeenSound, SeenUpTo, Bigs;
    big, seen' := bigNeighbour, seen;
    for col := 0 to thisLineId.Length
      invariant big == Bigs(f, polySizes, Pairs(f.conn, |f.ids[row]|, row, col))
      invariant Largest(big, polySizes, seen') && SeenSound(f, seen') && SeenUpTo(f, seen', row, col)
    {
      big, seen' := ComparePixel(thisLineId, lastLineId, col, row, connectedness,
                                 polyIdMap, polyValue, polySizes, big, f, seen');
    }
    LineCompared(f, seen', row);
  }

  lemma LineCompared(f: Final, seen: set<(nat, nat)>, y: nat)
    requires ValidFinal(f) && y < |f.ids| && SeenUpTo(f, seen, y, |f.ids[y]|)
    ensures SeenUpTo(f, seen, y + 1, 0)
  {
    forall p | InLines(f.ids, p) && Scanned(p, y + 1, 0)
      ensures Scanned(p, y, |f.ids[y]|)
    {
    }
  }

  /** Compares the polygons of one line, and those of the line above, with their neighbours. */
  method NextOfSecondPass(src: RasterBand, mask: RasterBand?, connectedness: int,
                          firstEnum: GDALRasterPolygonEnumerator<int>, secondEnum: GDALRasterPolygonEnumerator<int>,
                          polySizes: seq<int>, bigNeighbour: seq<int>, lastLineVal: Option<seq<int>>,
                          lastLineId: array<int>, thisLineId: array<int>, row: nat, ghost seen: set<(nat, nat)>,
                          ghost raw: seq<seq<int>>, ghost maskRaw: Option<seq<seq<int>>>)
    returns (lineVal: Option<seq<int>>, big: seq<int>, ghost seen': set<(nat, nat)>)
    requires Intact(src, mask, raw, maskRaw, 0) && row < |raw| && firstEnum != secondEnum
    requires FirstPassDone(firstEnum, connectedness, Masked(raw, maskRaw, GP_NODATA_MARKER)) &&
             |polySizes| == |firstEnum.polyIdMap|
    requires lastLineId != thisLineId && lastLineId.Length == thisLineId.Length == src.xSize
    requires Replaying(secondEnum, IntRule(connectedness), Masked(raw, maskRaw, GP_NODATA_MARKER), row, lastLineVal,
                       lastLineId, 0)
    requires ValidFinal(FinalOf(firstEnum)) && (row > 0 ==> lastLineId[..] == FinalOf(firstEnum).ids[row - 1])
    requires Largest(bigNeighbour, polySizes, seen) && SeenSound(FinalOf(firstEnum), seen)
    requires SeenUpTo(FinalOf(firstEnum), seen, row, 0)
    requires bigNeighbour == Bigs(FinalOf(firstEnum), polySizes, Pairs(connectedness, src.xSize, row, 0))
    modifies secondEnum, thisLineId
    ensures Replaying(secondEnum, IntRule(connectedness), Masked(raw, maskRaw, GP_NODATA_MARKER), row + 1, lineVal,
                      thisLineId, 0)
    ensures thisLineId[..] == FinalOf(firstEnum).ids[row]
    ensures Largest(big, polySizes, seen') && SeenSound(FinalOf(firstEnum), seen')
    ensures SeenUpTo(FinalOf(firstEnum), seen', row + 1, 0)
    ensures big == Bigs(FinalOf(firstEnum), polySizes, Pairs(connectedness, src.xSize, row + 1, 0))
  {
    hide Enumerated, RootsAre, RawMerges, Masked, Largest, SeenSound, SeenUpTo, Bigs, Pairs;
    var _, thisLineVal := ReadMasked(src, mask, row, raw, maskRaw);
    ReplayLine(firstEnum, secondEnum, lastLineVal, thisLineVal, lastLineId, thisLineId, 0, IntRule(connectedness),
               Masked(raw, maskRaw, GP_NODATA_MARKER), row);
    assert thisLineId[..] == thisLineId[0..src.xSize];
    big, seen' := CompareLine(thisLineId, lastLineId, row, connectedness, firstEnum.polyIdMap, firstEnum.polyValue,
                              polySizes, bigNeighbour, FinalOf(firstEnum), seen);
    lineVal := Some(thisLineVal);
  }

  method SecondPass(src: RasterBand, mask: RasterBand?, connectedness: int,
                    firstEnum: GDALRasterPolygonEnumerator<int>, polySizes: seq<int>,
                    ghost raw: seq<seq<int>>, ghost maskRaw: Option<seq<seq<int>>>)
    returns (secondEnum: GDALRasterPolygonEnumerator<int>, bigNeighbour: seq<int>, ghost seen: set<(nat, nat)>)
    requires Intact(src, mask, raw, maskRaw, 0)
    requires FirstPassDone(firstEnum, connectedness, Masked(raw, maskRaw, GP_NODATA_MARKER)) &&
             |polySizes| == |firstEnum.polyIdMap|
    ensures fresh(secondEnum) && secondEnum.Valid() && secondEnum.rule == IntRule(connectedness)
    ensures ValidFinal(FinalOf(firstEnum)) && Largest(bigNeighbour, polySizes, seen)
    ensures SeenSound(FinalOf(firstEnum), seen) && SeenUpTo(FinalOf(firstEnum), seen, |raw|, 0)
    ensures bigNeighbour == Bigs(FinalOf(firstEnum), polySizes, Pairs(connectedness, src.xSize, |raw|, 0))
  {
    hide Enumerated, RootsAre, RawMerges, Masked, Largest, SeenSound, SeenUpTo, Bigs, Pairs;
    var rule := IntRule(connectedness);
    ghost var img := Masked(raw, maskRaw, GP_NODATA_MARKER);
    ghost var f := FinalOf(firstEnum);
    FinalOfFirst(firstEnum, connectedness, img);
    secondEnum := new GDALRasterPolygonEnumerator(rule);
    bigNeighbour := seq(|polySizes|, _ => -1);
    seen := {};
    NothingSeen(f, polySizes);
    var lastLineId, thisLineId := new int[src.xSize], new int[src.xSize];
    var lastLineVal := None;
    var ySize := |src.lines|;
    var row := 0;
    while row < ySize
      invariant fresh(secondEnum) && fresh(lastLineId) && fresh(thisLineId)
      invariant lastLineId != thisLineId && lastLineId.Length == thisLineId.Length == src.xSize
      invariant Replaying(secondEnum, rule, img, row, lastLineVal, lastLineId, 0)
      invariant row > 0 ==> lastLineId[..] == f.ids[row - 1]
      invariant Largest(bigNeighbour, polySizes, seen) && SeenSound(f, seen) && SeenUpTo(f, seen, row, 0)
      invariant bigNeighbour == Bigs(f, polySizes, Pairs(connectedness, src.xSize, row, 0))
    {
      lastLineVal, bigNeighbour, seen :=
        NextOfSecondPass(src, mask, connectedness, firstEnum, secondEnum, polySizes, bigNeighbour, lastLineVal,
                         lastLineId, thisLineId, row, seen, raw, maskRaw);
      lastLineId, thisLineId := thisLineId, lastLineId;
      row := row + 1;
    }
  }

  lemma NothingSeen(f: Final, sizes: seq<int>)
    requires ValidFinal(f)
    ensures forall w: nat :: Pairs(f.conn, w, 0, 0) == []
    ensures Largest(seq(|sizes|, _ => -1), sizes, {}) && SeenSound(f, {}) && SeenUpTo(f, {}, 0, 0)
    ensures |sizes| == |f.map_| ==> seq(|sizes|, _ => -1) == Bigs(f, sizes, [])
  {
  }

  /** The polygon that takes over k, or -1. */
  function Target(map_: seq<nat>, sizes: seq<int>, big: seq<int>, threshold: int, k: nat): (t: int)
    requires k < |big| == |sizes| && (big[k] != -1 ==> 0 <= big[k] < |sizes|)
  {
    if big[k] != -1 && sizes[k] < threshold && sizes[big[k]] >= threshold then big[k] else -1
  }

  /** Forgets the largest neighbour of a polygon that is not to be merged into it. */
  method Threshold(polyIdMap: seq<nat>, polyValue: seq<int>, polySizes: seq<int>, bigNeighbour: seq<int>,
                   sizeThreshold: int)
    returns (big: seq<int>)
    requires |polyIdMap| == |polyValue| == |polySizes| == |bigNeighbour|
    requires forall k :: 0 <= k < |bigNeighbour| && bigNeighbour[k] != -1 ==>
               0 <= bigNeighbour[k] < |bigNeighbour| && polyIdMap[k] == k && polyValue[k] != GP_NODATA_MARKER
    ensures |big| == |bigNeighbour|
    ensures forall k: nat :: k < |big| ==> big[k] == Target(polyIdMap, polySizes, bigNeighbour, sizeThreshold, k)
  {
    big := bigNeighbour;
    for poly := 0 to |polySizes|
      invariant |big| == |bigNeighbour|
      invariant forall k: nat :: k < poly ==> big[k] == Target(polyIdMap, polySizes, bigNeighbour, sizeThreshold, k)
      invariant forall k :: poly <= k < |big| ==> big[k] == bigNeighbour[k]
    {
      if polyIdMap[poly] != poly {
        continue;
      }
      if polyValue[poly] == GP_NODATA_MARKER {
        continue;
      }
      if polySizes[poly] >= sizeThreshold {
        big := big[poly := -1];
        continue;
      }
      if big[poly] == -1 {
        continue;
      }
      if polySizes[big[poly]] >= sizeThreshold {
        continue;
      }
      big := big[poly := -1];
    }
  }

  // ---------------------------------------------------------------------
  // Third pass: rewriting the raster.
  // ---------------------------------------------------------------------

  ghost predicate ValidTargets(f: Final, big: seq<int>) {
    && ValidFinal(f) && |big| == |f.map_|
    && forall k :: 0 <= k < |big| ==> -1 <= big[k] < |big|
  }

  /** The value written for pixel x of a line with the raw ids ids. */
  function NewValue(map_: seq<nat>, values: seq<int>, big: seq<int>, id: nat, raw: int): int
    requires IsFlat(map_) && id < |map_| == |values| == |big| && forall k :: 0 <= k < |big| ==> -1 <= big[k] < |big|
  {
    if big[map_[id]] != -1 then values[big[map_[id]]] else raw
  }

  /** Line y of the raster that is written. */
  ghost predicate LineRewritten(f: Final, big: seq<int>, y: nat, raw: seq<int>, out: seq<int>)
    requires ValidTargets(f, big) && y < |f.ids|
  {
    && |out| == |raw| == |f.ids[y]|
    && forall x :: 0 <= x < |out| ==>
         InLines(f.ids, Pixel(x, y)) && out[x] == NewValue(f.map_, f.values, big, At(f.ids, Pixel(x, y)), raw[x])
  }

  method RewriteLine(thisLineId: array<int>, line: seq<int>, polyIdMap: seq<nat>, polyValue: seq<int>,
                     bigNeighbour: seq<int>, ghost f: Final, ghost y: nat)
    returns (thisLineWriteVal: seq<int>)
    requires ValidTargets(f, bigNeighbour) && f.map_ == polyIdMap && f.values == polyValue
    requires y < |f.ids| && thisLineId[..] == f.ids[y] && |line| == thisLineId.Length
    ensures LineRewritten(f, bigNeighbour, y, line, thisLineWriteVal)
  {
    thisLineWriteVal := line;
    for col := 0 to |line|
      invariant |thisLineWriteVal| == |line|
      invariant forall x :: 0 <= x < col ==>
                  InLines(f.ids, Pixel(x, y)) && thisLineWriteVal[x] ==
                      NewValue(f.map_, f.values, bigNeighbour, At(f.ids, Pixel(x, y)), line[x])
      invariant forall x :: col <= x < |line| ==> thisLineWriteVal[x] == line[x]
    {
      assert InLines(f.ids, Pixel(col, y)) && At(f.ids, Pixel(col, y)) == thisLineId[col];
      var thisPoly := polyIdMap[thisLineId[col]];
      if bigNeighbour[thisPoly] != -1 {
        thisLineWriteVal := thisLineWriteVal[col := polyValue[bigNeighbour[thisPoly]]];
      }
    }
  }

  /** The lines above row have been written. */
  ghost predicate RewrittenUpTo(f: Final, big: seq<int>, raw: seq<seq<int>>, dst: RasterBand, row: nat)
    reads dst
  {
    && ValidTargets(f, big) && dst.Valid() && row <= |dst.lines| == |raw| == |f.ids|
    && forall y :: 0 <= y < row ==> LineRewritten(f, big, y, raw[y], dst.lines[y])
  }

  lemma NothingRewritten(f: Final, big: seq<int>, raw: seq<seq<int>>, dst: RasterBand)
    requires ValidTargets(f, big) && dst.Valid() && |dst.lines| == |raw| == |f.ids|
    ensures RewrittenUpTo(f, big, raw, dst, 0)
  {
  }

  method RewriteAndWrite(src: RasterBand, mask: RasterBand?, dst: RasterBand, connectedness: int,
                         firstEnum: GDALRasterPolygonEnumerator<int>, secondEnum: GDALRasterPolygonEnumerator<int>,
                         bigNeighbour: seq<int>, lastLineVal: Option<seq<int>>,
                         lastLineId: array<int>, thisLineId: array<int>, row: nat,
                         ghost raw: seq<seq<int>>, ghost maskRaw: Option<seq<seq<int>>>)
    returns (thisLineVal: seq<int>)
    requires Intact(src, mask, raw, maskRaw, row) && row < |raw| && dst.xSize == src.xSize
    requires FirstPassDone(firstEnum, connectedness, Masked(raw, maskRaw, GP_NODATA_MARKER)) && secondEnum != firstEnum
    requires Replaying(secondEnum, IntRule(connectedness), Masked(raw, maskRaw, GP_NODATA_MARKER), row, lastLineVal,
                       lastLineId, 0)
    requires lastLineId != thisLineId && lastLineId.Length == thisLineId.Length == src.xSize
    requires RewrittenUpTo(FinalOf(firstEnum), bigNeighbour, raw, dst, row)
    modifies dst, secondEnum, thisLineId
    ensures Replaying(secondEnum, IntRule(connectedness), Masked(raw, maskRaw, GP_NODATA_MARKER), row + 1,
                      Some(thisLineVal), thisLineId, 0)
    ensures Intact(src, mask, raw, maskRaw, row + 1)
    ensures RewrittenUpTo(FinalOf(firstEnum), bigNeighbour, raw, dst, row + 1)
  {
    hide Enumerated, RootsAre, RawMerges, Masked, LineRewritten;
    ghost var f := FinalOf(firstEnum);
    var line;
    line, thisLineVal := ReadMasked(src, mask, row, raw, maskRaw);
    ReplayLine(firstEnum, secondEnum, lastLineVal, thisLineVal, lastLineId, thisLineId, 0,
               IntRule(connectedness), Masked(raw, maskRaw, GP_NODATA_MARKER), row);
    assert thisLineId[..] == thisLineId[0..src.xSize];
    var thisLineWriteVal := RewriteLine(thisLineId, line, firstEnum.polyIdMap, firstEnum.polyValue,
                                           bigNeighbour, f, row);
    LineRewrittenLength(f, bigNeighbour, row, line, thisLineWriteVal);
    dst.WriteLine(row, thisLineWriteVal);
  }

  method ThirdPass(src: RasterBand, mask: RasterBand?, dst: RasterBand, connectedness: int,
                   firstEnum: GDALRasterPolygonEnumerator<int>, secondEnum: GDALRasterPolygonEnumerator<int>,
                   bigNeighbour: seq<int>, ghost raw: seq<seq<int>>, ghost maskRaw: Option<seq<seq<int>>>)
    requires Intact(src, mask, raw, maskRaw, 0)
    requires dst.Valid() && dst.xSize == src.xSize && |dst.lines| == |raw|
    requires FirstPassDone(firstEnum, connectedness, Masked(raw, maskRaw, GP_NODATA_MARKER)) &&
             ValidTargets(FinalOf(firstEnum), bigNeighbour)
    requires secondEnum.Valid() && secondEnum.rule == IntRule(connectedness) && secondEnum != firstEnum
    modifies dst, secondEnum
    ensures RewrittenUpTo(FinalOf(firstEnum), bigNeighbour, raw, dst, |raw|)
  {
    hide Enumerated, RootsAre, RawMerges, Masked, LineRewritten, RewrittenUpTo;
    var rule := IntRule(connectedness);
    ghost var img := Masked(raw, maskRaw, GP_NODATA_MARKER);
    ghost var f := FinalOf(firstEnum);
    FinalOfFirst(firstEnum, connectedness, img);
    secondEnum.Clear();
    NothingRewritten(f, bigNeighbour, raw, dst);
    var lastLineId, thisLineId := new int[src.xSize], new int[src.xSize];
    var lastLineVal := None;
    var ySize := |src.lines|;
    var row := 0;
    while row < ySize
      invariant fresh(lastLineId) && fresh(thisLineId)
      invariant lastLineId != thisLineId && lastLineId.Length == thisLineId.Length == src.xSize
      invariant Replaying(secondEnum, rule, img, row, lastLineVal, lastLineId, 0)
      invariant Intact(src, mask, raw, maskRaw, row)
      invariant RewrittenUpTo(f, bigNeighbour, raw, dst, row)
    {
      var thisLineVal := RewriteAndWrite(src, mask, dst, connectedness, firstEnum, secondEnum, bigNeighbour,
                                            lastLineVal, lastLineId, thisLineId, row, raw, maskRaw);
      lastLineVal := Some(thisLineVal);
      lastLineId, thisLineId := thisLineId, lastLineId;
      row := row + 1;
    }
  }

  lemma LineRewrittenLength(f: Final, big: seq<int>, y: nat, raw: seq<int>, out: seq<int>)
    requires ValidTargets(f, big) && y < |f.ids| && LineRewritten(f, big, y, raw, out)
    ensures |out| == |raw|
  {
  }

  // ---------------------------------------------------------------------
  // From final ids back to polygons of the raster.
  // ---------------------------------------------------------------------

  ghost predicate Agrees(img: seq<seq<int>>, f: Final, sizes: seq<int>) {
    && ValidFinal(f) && |sizes| == |f.map_|
    && FinalIds(img, IntRule(f.conn), f.map_, f.values, f.ids)
    && PolygonSizes(f.ids, f.map_, sizes)
  }

  lemma SizeIsPolygonSize(img: seq<seq<int>>, f: Final, sizes: seq<int>, p: Pixel)
    requires Agrees(img, f, sizes) && InLines(f.ids, p)
    ensures sizes[FinalId(f, p)] == Saturated(Size(img, IntRule(f.conn), p))
  {
    var r := FinalId(f, p);
    forall q
      ensures q in FinalHolders(f.ids, f.map_, r) <==> q in Polygon(img, IntRule(f.conn), p)
    {
      if InLines(img, q) {
        assert InLines(f.ids, q) && At(f.ids, q) < |f.map_|;
      }
    }
    assert FinalHolders(f.ids, f.map_, r) == Polygon(img, IntRule(f.conn), p);
  }

  /** A bordering polygon has been compared ... */
  lemma BorderWasSeen(img: seq<seq<int>>, f: Final, sizes: seq<int>, seen: set<(nat, nat)>, p: Pixel, b: Pixel)
    requires Agrees(img, f, sizes) && InLines(f.ids, p) && SeenUpTo(f, seen, |img|, 0)
    requires Borders(img, IntRule(f.conn), p, b)
    ensures InLines(f.ids, b) && (FinalId(f, p), FinalId(f, b)) in seen
  {
    var a :| BordersAt(img, IntRule(f.conn), p, a, b);
    assert InLines(f.ids, a) && InLines(f.ids, b) && Scanned(a, |img|, 0) && Scanned(b, |img|, 0);
    assert FinalId(f, a) == FinalId(f, p) != FinalId(f, b);
    assert (FinalId(f, a), FinalId(f, b)) in Compared(f.map_, f.values, At(f.ids, a), At(f.ids, b));
  }

  /** ... and what has been compared is a bordering polygon. */
  lemma SeenIsBorder(img: seq<seq<int>>, f: Final, sizes: seq<int>, seen: set<(nat, nat)>, p: Pixel,
                     t: nat) returns (b: Pixel)
    requires Agrees(img, f, sizes) && InLines(f.ids, p) && SeenSound(f, seen)
    requires (FinalId(f, p), t) in seen
    ensures InLines(f.ids, b) && Borders(img, IntRule(f.conn), p, b) && FinalId(f, b) == t
    ensures At(img, p) != GP_NODATA_MARKER
  {
    var a, q :| TouchAt(f.conn, f.map_, f.values, f.ids, a, q, FinalId(f, p), t);
    b := q;
    assert FinalId(f, a) == FinalId(f, p);
    assert BordersAt(img, IntRule(f.conn), p, a, b);
  }

  /** The target of a polygon is a largest neighbour at or above the threshold ... */
  lemma TargetIsLargest(img: seq<seq<int>>, f: Final, sizes: seq<int>, big: seq<int>, seen: set<(nat, nat)>,
                        threshold: int, p: Pixel)
    returns (b: Pixel)
    requires Agrees(img, f, sizes) && InLines(f.ids, p) && threshold <= MY_MAX_INT
    requires Largest(big, sizes, seen) && SeenSound(f, seen) && SeenUpTo(f, seen, |img|, 0)
    requires Target(f.map_, sizes, big, threshold, FinalId(f, p)) != -1
    ensures Sieved(img, IntRule(f.conn), threshold, p) && LargestNeighbour(img, IntRule(f.conn), p, b)
    ensures Size(img, IntRule(f.conn), b) >= threshold
    ensures f.values[Target(f.map_, sizes, big, threshold, FinalId(f, p))] == At(img, b)
    ensures InLines(f.ids, b) && FinalId(f, b) == big[FinalId(f, p)]
  {
    hide PolygonSizes, SeenSound, SeenUpTo, Borders, Size;
    var r, rule := FinalId(f, p), IntRule(f.conn);
    SizeIsPolygonSize(img, f, sizes, p);
    b := SeenIsBorder(img, f, sizes, seen, p, big[r]);
    SizeIsPolygonSize(img, f, sizes, b);
    forall c | Borders(img, rule, p, c)
      ensures Saturated(Size(img, rule, c)) <= Saturated(Size(img, rule, b))
    {
      BorderWasSeen(img, f, sizes, seen, p, c);
      SizeIsPolygonSize(img, f, sizes, c);
    }
  }

  /** ... and every sieved polygon has one. */
  lemma SievedHasTarget(img: seq<seq<int>>, f: Final, sizes: seq<int>, big: seq<int>, seen: set<(nat, nat)>,
                        threshold: int, p: Pixel)
    requires Agrees(img, f, sizes) && InLines(f.ids, p) && threshold <= MY_MAX_INT
    requires Largest(big, sizes, seen) && SeenSound(f, seen) && SeenUpTo(f, seen, |img|, 0)
    requires Sieved(img, IntRule(f.conn), threshold, p)
    ensures Target(f.map_, sizes, big, threshold, FinalId(f, p)) != -1
  {
    hide PolygonSizes, SeenSound, SeenUpTo, Borders, Size;
    var rule := IntRule(f.conn);
    SizeIsPolygonSize(img, f, sizes, p);
    var b :| Borders(img, rule, p, b) && Size(img, rule, b) >= threshold;
    BorderWasSeen(img, f, sizes, seen, p, b);
    SizeIsPolygonSize(img, f, sizes, b);
  }

  /** The neighbour found among the pairs is the one that the comparison of final ids arrives at. */
  lemma {:induction false} FoundIsBig(img: seq<seq<int>>, f: Final, sizes: seq<int>, p: Pixel,
                                      pairs: seq<(Pixel, Pixel)>)
    requires Agrees(img, f, sizes) && InLines(f.ids, p) && (f.conn == 4 || f.conn == 8)
    requires forall k :: 0 <= k < |pairs| ==> Adjacent(f.conn, pairs[k].0, pairs[k].1)
    ensures FoundAs(img, f, p, Found(img, IntRule(f.conn), p, pairs), Bigs(f, sizes, pairs)[FinalId(f, p)])
  {
    hide PolygonSizes, FinalIds;
    if pairs == [] {
    } else {
      var n, rule := |pairs| - 1, IntRule(f.conn);
      var (a, b) := pairs[n];
      FoundIsBig(img, f, sizes, p, pairs[..n]);
      var big, found := Bigs(f, sizes, pairs[..n]), Found(img, rule, p, pairs[..n]);
      BetterIsOffer(img, f, sizes, p, found, big, a, b);
    }
  }

  /** What it takes for a pair to border on the polygon of p, in terms of final ids. */
  lemma BordersAtIds(img: seq<seq<int>>, f: Final, sizes: seq<int>, p: Pixel, a: Pixel, b: Pixel)
    requires Agrees(img, f, sizes) && InLines(f.ids, p) && Adjacent(f.conn, a, b)
    ensures BordersAt(img, IntRule(f.conn), p, a, b) <==>
            && InLines(f.ids, a) && InLines(f.ids, b)
            && FinalId(f, p) == FinalId(f, a) != FinalId(f, b)
            && f.values[FinalId(f, a)] != GP_NODATA_MARKER && f.values[FinalId(f, b)] != GP_NODATA_MARKER
  {
    hide PolygonSizes;
    assert InLines(f.ids, a) <==> InLines(img, a);
    assert InLines(f.ids, b) <==> InLines(img, b);
  }

  lemma AdjacentSymmetric(conn: int, a: Pixel, b: Pixel)
    requires Adjacent(conn, a, b)
    ensures Adjacent(conn, b, a)
  {
  }

  lemma BetterIsOffer(img: seq<seq<int>>, f: Final, sizes: seq<int>, p: Pixel, found: Option<Pixel>, big: seq<int>,
                      a: Pixel, b: Pixel)
    requires Agrees(img, f, sizes) && InLines(f.ids, p) && Adjacent(f.conn, a, b)
    requires |big| == |sizes| && InRange(big) && FoundAs(img, f, p, found, big[FinalId(f, p)])
    ensures var rule := IntRule(f.conn);
            var big' := if InLines(f.ids, a) && InLines(f.ids, b)
                        then Compare(f.map_, f.values, sizes, big, At(f.ids, a), At(f.ids, b)) else big;
            FoundAs(img, f, p, Better(img, rule, p, Better(img, rule, p, found, a, b), b, a), big'[FinalId(f, p)])
  {
    hide Agrees, BordersAt, FoundAs, Offer;
    AgreesIsValid(img, f, sizes);
    AdjacentSymmetric(f.conn, a, b);
    BordersAtIds(img, f, sizes, p, a, b);
    BordersAtIds(img, f, sizes, p, b, a);
    if InLines(f.ids, a) && InLines(f.ids, b) {
      var ida, idb := FinalId(f, a), FinalId(f, b);
      if ida != idb && f.values[ida] != GP_NODATA_MARKER && f.values[idb] != GP_NODATA_MARKER {
        OneOffer(img, f, sizes, p, found, big, a, b);
        OneOffer(img, f, sizes, p, Better(img, IntRule(f.conn), p, found, a, b), Offer(big, sizes, ida, idb), b, a);
      }
    }
  }

  lemma AgreesIsValid(img: seq<seq<int>>, f: Final, sizes: seq<int>)
    requires Agrees(img, f, sizes)
    ensures ValidFinal(f) && |sizes| == |f.map_|
  {
  }

  lemma OneOffer(img: seq<seq<int>>, f: Final, sizes: seq<int>, p: Pixel, found: Option<Pixel>, big: seq<int>,
                 a: Pixel, b: Pixel)
    requires Agrees(img, f, sizes) && InLines(f.ids, p) && Adjacent(f.conn, a, b)
    requires |big| == |sizes| && InRange(big) && FoundAs(img, f, p, found, big[FinalId(f, p)])
    requires InLines(f.ids, a) && InLines(f.ids, b) && FinalId(f, a) != FinalId(f, b)
    requires f.values[FinalId(f, a)] != GP_NODATA_MARKER && f.values[FinalId(f, b)] != GP_NODATA_MARKER
    ensures FoundAs(img, f, p, Better(img, IntRule(f.conn), p, found, a, b),
                    Offer(big, sizes, FinalId(f, a), FinalId(f, b))[FinalId(f, p)])
  {
    hide PolygonSizes, FinalIds, Size;
    var rule, r := IntRule(f.conn), FinalId(f, p);
    BordersAtIds(img, f, sizes, p, a, b);
    if r == FinalId(f, a) {
      assert Borders(img, rule, p, b);
      SizeIsPolygonSize(img, f, sizes, b);
      if found.Some? {
        SizeIsPolygonSize(img, f, sizes, found.value);
      }
    }
  }

  /** The neighbour found is a largest one, as is any other that has its final id. */
  lemma FoundIsLargest(img: seq<seq<int>>, f: Final, sizes: seq<int>, p: Pixel, b: Pixel, b': Pixel)
    requires Agrees(img, f, sizes) && InLines(f.ids, p) && InLines(f.ids, b) && InLines(f.ids, b')
    requires Borders(img, IntRule(f.conn), p, b') && FinalId(f, b) == FinalId(f, b')
    requires LargestNeighbour(img, IntRule(f.conn), p, b)
    ensures LargestNeighbour(img, IntRule(f.conn), p, b') && At(img, b') == At(img, b)
    ensures Size(img, IntRule(f.conn), b') == Size(img, IntRule(f.conn), b)
  {
    hide Borders;
    forall q
      ensures q in Polygon(img, IntRule(f.conn), b) <==> q in Polygon(img, IntRule(f.conn), b')
    {
      if InLines(img, q) {
        assert InLines(f.ids, q);
      }
    }
    assert Polygon(img, IntRule(f.conn), b) == Polygon(img, IntRule(f.conn), b');
  }

  lemma {:induction false} PairsAdjacent(conn: int, w: nat, y: nat, x: nat)
    requires x <= w && (conn == 4 || conn == 8)
    ensures forall k :: 0 <= k < |Pairs(conn, w, y, x)| ==>
            Adjacent(conn, Pairs(conn, w, y, x)[k].0, Pairs(conn, w, y, x)[k].1)
    decreases y, x
  {
    if x > 0 {
      PairsAdjacent(conn, w, y, x - 1);
    } else if y > 0 {
      PairsAdjacent(conn, w, y - 1, w);
    }
  }

  /** A found neighbour borders on the polygon and has the final id, or there is none. */
  ghost predicate FoundAs(img: seq<seq<int>>, f: Final, p: Pixel, found: Option<Pixel>, id: int)
    requires ValidFinal(f)
  {
    match found
    case None => id == -1
    case Some(b) => InLines(f.ids, b) && Borders(img, IntRule(f.conn), p, b) && id == FinalId(f, b)
  }

  lemma RewrittenIsSieved(raw: seq<seq<int>>, img: seq<seq<int>>, f: Final, sizes: seq<int>, big: seq<int>,
                          seen: set<(nat, nat)>, threshold: int, targets: seq<int>, out: seq<seq<int>>)
    requires SameShape(raw, img) && Agrees(img, f, sizes) && threshold <= MY_MAX_INT
    requires Largest(big, sizes, seen) && SeenSound(f, seen) && SeenUpTo(f, seen, |img|, 0)
    requires |targets| == |big| && forall k: nat :: k < |big| ==> targets[k] == Target(f.map_, sizes, big, threshold, k)
    requires ValidTargets(f, targets) && |out| == |raw|
    requires forall y :: 0 <= y < |raw| ==> LineRewritten(f, targets, y, raw[y], out[y])
    requires (f.conn == 4 || f.conn == 8) && big == Bigs(f, sizes, Pairs(f.conn, Width(img), |img|, 0))
    ensures SieveOf(raw, img, IntRule(f.conn), threshold, out)
  {
    hide Largest, SeenSound, SeenUpTo, Chosen, LargestNeighbour, Bigs, Agrees, Size;
    AgreesIsValid(img, f, sizes);
    var rule := IntRule(f.conn);
    forall p | InLines(img, p)
      ensures InLines(f.ids, p) && InLines(out, p) && InLines(raw, p)
      ensures At(out, p) == if targets[FinalId(f, p)] != -1 then f.values[targets[FinalId(f, p)]] else At(raw, p)
    {
      assert LineRewritten(f, targets, p.y, raw[p.y], out[p.y]);
      assert InLines(f.ids, Pixel(p.x, p.y));
    }
    forall p | InLines(img, p) && !Sieved(img, rule, threshold, p)
      ensures At(out, p) == At(raw, p)
    {
      if targets[FinalId(f, p)] != -1 {
        var b := TargetIsLargest(img, f, sizes, big, seen, threshold, p);
      }
    }
    forall p | InLines(img, p) && Sieved(img, rule, threshold, p)
      ensures targets[FinalId(f, p)] != -1
      ensures TakesOver(img, rule, threshold, p, Chosen(img, rule, p), f.values[targets[FinalId(f, p)]])
    {
      SievedHasTarget(img, f, sizes, big, seen, threshold, p);
      ChosenTakesOver(img, f, sizes, big, seen, threshold, p);
    }
    forall p, q | InLines(img, p) && InLines(img, q) && Connected(img, rule, p, q) && Sieved(img, rule, threshold, p)
      ensures At(out, p) == At(out, q)
    {
      SameFinalId(img, f, sizes, p, q);
      assert FinalId(f, p) == FinalId(f, q);
    }
  }

  lemma SameFinalId(img: seq<seq<int>>, f: Final, sizes: seq<int>, p: Pixel, q: Pixel)
    requires Agrees(img, f, sizes) && InLines(f.ids, p) && InLines(f.ids, q) && Connected(img, IntRule(f.conn), p, q)
    ensures FinalId(f, p) == FinalId(f, q)
  {
  }

  lemma ChosenTakesOver(img: seq<seq<int>>, f: Final, sizes: seq<int>, big: seq<int>, seen: set<(nat, nat)>,
                        threshold: int, p: Pixel)
    requires Agrees(img, f, sizes) && InLines(f.ids, p) && threshold <= MY_MAX_INT && (f.conn == 4 || f.conn == 8)
    requires Largest(big, sizes, seen) && SeenSound(f, seen) && SeenUpTo(f, seen, |img|, 0)
    requires big == Bigs(f, sizes, Pairs(f.conn, Width(img), |img|, 0))
    requires Target(f.map_, sizes, big, threshold, FinalId(f, p)) != -1
    ensures var rule := IntRule(f.conn);
            TakesOver(img, rule, threshold, p, Chosen(img, rule, p),
                      f.values[Target(f.map_, sizes, big, threshold, FinalId(f, p))])
  {
    hide Largest, SeenSound, SeenUpTo, Agrees, Size, LargestNeighbour, Found, Bigs;
    PairsAdjacent(f.conn, Width(img), |img|, 0);
    FoundIsBig(img, f, sizes, p, Pairs(f.conn, Width(img), |img|, 0));
    var b := TargetIsLargest(img, f, sizes, big, seen, threshold, p);
    var chosen := Chosen(img, IntRule(f.conn), p);
    FoundIsLargest(img, f, sizes, p, b, chosen.value);
  }

  lemma LargestIsValid(f: Final, sizes: seq<int>, big: seq<int>, seen: set<(nat, nat)>)
    requires ValidFinal(f) && Largest(big, sizes, seen) && SeenSound(f, seen) && |sizes| == |f.map_|
    ensures |big| == |sizes|
    ensures forall k :: 0 <= k < |big| && big[k] != -1 ==>
              0 <= big[k] < |big| && f.map_[k] == k && f.values[k] != GP_NODATA_MARKER
  {
  }

  /** Sieves src into dst; any two of the three bands may be the same. */
  method GDALSieveFilter(src: RasterBand, mask: RasterBand?, dst: RasterBand, sizeThreshold: int, connectedness: int)
    requires connectedness == 4 || connectedness == 8
    requires sizeThreshold <= 2147483647
    requires WellShaped(src, mask) && dst.Valid() && dst.xSize == src.xSize && |dst.lines| == |src.lines|
    modifies dst
    ensures var raw := old(src.lines);
            SieveOf(raw, Masked(raw, old(MaskLines(mask)), GP_NODATA_MARKER), IntRule(connectedness), sizeThreshold,
                    dst.lines)
  {
    hide Masked, Largest, SeenSound, SeenUpTo, FragmentSizes, PolygonSizes, FinalIds, Enumerated, RootsAre,
        RawMerges, SieveOf;
    ghost var raw, maskRaw := src.lines, MaskLines(mask);
    ghost var img := Masked(raw, maskRaw, GP_NODATA_MARKER);
    var firstEnum, polySizes := FirstPass(src, mask, connectedness, raw, maskRaw);
    firstEnum.CompleteMerges();
    FinalOfFirst(firstEnum, connectedness, img);
    ghost var f := FinalOf(firstEnum);
    polySizes := PushSizes(firstEnum.polyIdMap, polySizes, firstEnum.lineIds);
    var secondEnum, bigNeighbour, seen := SecondPass(src, mask, connectedness, firstEnum, polySizes, raw, maskRaw);
    LargestIsValid(f, polySizes, bigNeighbour, seen);
    var targets := Threshold(firstEnum.polyIdMap, firstEnum.polyValue, polySizes, bigNeighbour, sizeThreshold);
    ThirdPass(src, mask, dst, connectedness, firstEnum, secondEnum, targets, raw, maskRaw);
    RewrittenIsSieved(raw, img, f, polySizes, bigNeighbour, seen, sizeThreshold, targets, dst.lines);
  }
}

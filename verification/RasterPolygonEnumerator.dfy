/** GDALRasterPolygonEnumerator and its float twin: polygon ids are handed out
    one line at a time, ids that turn out to be one polygon are merged in a
    parent map, and CompleteMerges flattens that map. */
module RasterPolygonEnumerator {
  import opened Connectivity
  import opened Forest
  import opened Wrappers

  // ---------------------------------------------------------------------
  // The ids themselves.  They depend on the pixel values only, never on the
  // parent map, which is what makes replaying a raster possible.
  // ---------------------------------------------------------------------

  /** The id that pixel i takes over from a pixel before it, if any; cur are the
      ids of the pixels to its left. */
  function TakenId<T>(rule: Rule<T>, lastVal: Option<seq<T>>, thisVal: seq<T>, lastId: seq<nat>, i: nat, cur: seq<nat>)
    : Option<nat>
    requires i < |thisVal| && |cur| == i
    requires lastVal.Some? ==> |lastVal.value| == |lastId| == |thisVal|
  {
    if i > 0 && rule.eq(thisVal[i], thisVal[i - 1]) then Some(cur[i - 1])
    else if lastVal.None? then None
    else if rule.eq(lastVal.value[i], thisVal[i]) then Some(lastId[i])
    else if i > 0 && rule.conn == 8 && rule.eq(lastVal.value[i - 1], thisVal[i]) then Some(lastId[i - 1])
    else if i < |thisVal| - 1 && rule.conn == 8 && rule.eq(lastVal.value[i + 1], thisVal[i]) then Some(lastId[i + 1])
    else None
  }

  /** Ids of the first n pixels of a line, and the next unused id. */
  function LineIds<T>(rule: Rule<T>, lastVal: Option<seq<T>>, thisVal: seq<T>, lastId: seq<nat>, next: nat, n: nat)
    : (r: (seq<nat>, nat))
    requires n <= |thisVal|
    requires lastVal.Some? ==> |lastVal.value| == |lastId| == |thisVal|
    ensures |r.0| == n && next <= r.1
  {
    if n == 0 then ([], next)
    else
      var (ids, k) := LineIds(rule, lastVal, thisVal, lastId, next, n - 1);
      match TakenId(rule, lastVal, thisVal, lastId, n - 1, ids)
      case Some(id) => (ids + [id], k)
      case None => (ids + [k], k + 1)
  }

  predicate Rectangular<T>(lines: seq<seq<T>>) {
    forall j :: 0 <= j < |lines| ==> |lines[j]| == |lines[0]|
  }

  lemma NoIds<T>(rule: Rule<T>, lastVal: Option<seq<T>>, thisVal: seq<T>, lastId: seq<nat>, next: nat)
    requires lastVal.Some? ==> |lastVal.value| == |lastId| == |thisVal|
    ensures LineIds(rule, lastVal, thisVal, lastId, next, 0) == ([], next)
  {
  }

  /** All raw ids given to some lines, and the next unused id. */
  datatype Ids = Ids(lines: seq<seq<nat>>, next: nat)

  /** The ids of one more line. */
  function NextLine<T>(rule: Rule<T>, lines: seq<seq<T>>, ids: Ids, line: seq<T>): (r: (seq<nat>, nat))
    requires SameShape(lines, ids.lines) && (lines != [] ==> |line| == |lines[|lines| - 1]|)
    ensures |r.0| == |line| && ids.next <= r.1
  {
    if lines == [] then LineIds(rule, None, line, [], ids.next, |line|)
    else LineIds(rule, Some(lines[|lines| - 1]), line, ids.lines[|lines| - 1], ids.next, |line|)
  }

  /** The raw ids of all lines. */
  function RawIds<T>(rule: Rule<T>, lines: seq<seq<T>>): (r: Ids)
    requires Rectangular(lines)
    ensures SameShape(lines, r.lines)
  {
    if lines == [] then Ids([], 0)
    else
      var n := |lines| - 1;
      var before := RawIds(rule, lines[..n]);
      var r := NextLine(rule, lines[..n], before, lines[n]);
      Ids(before.lines + [r.0], r.1)
  }

  lemma RawIdsStep<T>(rule: Rule<T>, lines: seq<seq<T>>, line: seq<T>)
    requires Rectangular(lines) && (lines != [] ==> |line| == |lines[0]|)
    ensures Rectangular(lines + [line])
    ensures var before := RawIds(rule, lines);
            var r := NextLine(rule, lines, before, line);
            RawIds(rule, lines + [line]) == Ids(before.lines + [r.0], r.1)
  {
    assert (lines + [line])[..|lines|] == lines;
  }

  // ---------------------------------------------------------------------
  // The final ids. Which ids are merged into which, and in what order, depends on the pixel values only, too.
  // ---------------------------------------------------------------------

  /** The id given first is merged into the other one. */
  type Merge = (nat, nat)

  function MergeIf(linked: bool, src: nat, dst: nat): seq<Merge> {
    if linked then [(src, dst)] else []
  }

  /** The merges for pixel i of a line, which has the id given; without a line above it there are none. */
  function PixelMerges<T>(rule: Rule<T>, lastVal: Option<seq<T>>, thisVal: seq<T>, lastId: seq<nat>, i: nat, id: nat)
    : seq<Merge>
    requires i < |thisVal| && (lastVal.Some? ==> |lastVal.value| == |lastId| == |thisVal|)
  {
    if lastVal.None? then []
    else
      var last, w := lastVal.value, |thisVal|;
      var upRight := MergeIf(rule.conn == 8 && i < w - 1 && rule.same(last[i + 1], thisVal[i]),
                             if i < w - 1 then lastId[i + 1] else 0, id);
      if i > 0 && rule.eq(thisVal[i], thisVal[i - 1]) then
        MergeIf(rule.eq(last[i], thisVal[i]), lastId[i], id) +
        MergeIf(rule.conn == 8 && rule.same(last[i - 1], thisVal[i]), lastId[i - 1], id) +
        upRight
      else if !rule.eq(last[i], thisVal[i]) && i > 0 && rule.conn == 8 && rule.eq(last[i - 1], thisVal[i]) then upRight
      else []
  }

  lemma NoPixelMerges<T>(rule: Rule<T>, lastVal: seq<T>, thisVal: seq<T>, lastId: seq<nat>, i: nat, id: nat)
    requires i < |thisVal| == |lastVal| == |lastId| && !(i > 0 && rule.eq(thisVal[i], thisVal[i - 1]))
    requires rule.eq(lastVal[i], thisVal[i]) || !(i > 0 && rule.conn == 8 && rule.eq(lastVal[i - 1], thisVal[i]))
    ensures PixelMerges(rule, Some(lastVal), thisVal, lastId, i, id) == []
  {
  }

  /** The merges for the first n pixels of a line with the ids given. */
  function LineMerges<T>(rule: Rule<T>, lastVal: Option<seq<T>>, thisVal: seq<T>, lastId: seq<nat>, ids: seq<nat>,
                         n: nat)
    : seq<Merge>
    requires n <= |ids| && n <= |thisVal| && (lastVal.Some? ==> |lastVal.value| == |lastId| == |thisVal|)
  {
    if n == 0 then [] else
    LineMerges(rule, lastVal, thisVal, lastId, ids, n - 1) +
    PixelMerges(rule, lastVal, thisVal, lastId, n - 1, ids[n - 1])
  }

  lemma {:induction false} LineMergesLocal<T>(rule: Rule<T>, lastVal: Option<seq<T>>, thisVal: seq<T>, lastId: seq<nat>,
                                              ids: seq<nat>, ids': seq<nat>, n: nat)
    requires n <= |ids| && n <= |ids'| && n <= |thisVal| && ids[..n] == ids'[..n]
    requires lastVal.Some? ==> |lastVal.value| == |lastId| == |thisVal|
    ensures LineMerges(rule, lastVal, thisVal, lastId, ids, n) == LineMerges(rule, lastVal, thisVal, lastId, ids', n)
  {
    hide PixelMerges;
    if n > 0 {
      assert ids[n - 1] == ids[..n][n - 1] == ids'[..n][n - 1] == ids'[n - 1];
      assert ids[..n - 1] == ids[..n][..n - 1] == ids'[..n - 1];
      LineMergesLocal(rule, lastVal, thisVal, lastId, ids, ids', n - 1);
    }
  }

  lemma NoMerges<T>(rule: Rule<T>, lastVal: Option<seq<T>>, thisVal: seq<T>, lastId: seq<nat>, ids: seq<nat>)
    requires lastVal.Some? ==> |lastVal.value| == |lastId| == |thisVal|
    ensures LineMerges(rule, lastVal, thisVal, lastId, ids, 0) == []
  {
  }

  lemma NextPixelMerges<T>(rule: Rule<T>, lastVal: Option<seq<T>>, thisVal: seq<T>, lastId: seq<nat>, ids: seq<nat>,
                           id: nat)
    requires |ids| < |thisVal| && (lastVal.Some? ==> |lastVal.value| == |lastId| == |thisVal|)
    ensures LineMerges(rule, lastVal, thisVal, lastId, ids + [id], |ids| + 1)
         == LineMerges(rule, lastVal, thisVal, lastId, ids, |ids|)
            + PixelMerges(rule, lastVal, thisVal, lastId, |ids|, id)
  {
    LineMergesLocal(rule, lastVal, thisVal, lastId, ids + [id], ids, |ids|);
  }

  /** The merges for one more line. */
  function NextMerges<T>(rule: Rule<T>, lines: seq<seq<T>>, ids: Ids, line: seq<T>): seq<Merge>
    requires SameShape(lines, ids.lines) && (lines != [] ==> |line| == |lines[|lines| - 1]|)
  {
    var r := NextLine(rule, lines, ids, line);
    if lines == [] then LineMerges(rule, None, line, [], r.0, |line|)
    else LineMerges(rule, Some(lines[|lines| - 1]), line, ids.lines[|lines| - 1], r.0, |line|)
  }

  /** The merges for all lines. */
  function RawMerges<T>(rule: Rule<T>, lines: seq<seq<T>>): seq<Merge>
    requires Rectangular(lines)
  {
    if lines == [] then []
    else
      var n := |lines| - 1;
      RawMerges(rule, lines[..n]) + NextMerges(rule, lines[..n], RawIds(rule, lines[..n]), lines[n])
  }

  lemma RawMergesStep<T>(rule: Rule<T>, lines: seq<seq<T>>, line: seq<T>)
    requires Rectangular(lines) && (lines != [] ==> |line| == |lines[0]|)
    ensures Rectangular(lines + [line])
    ensures RawMerges(rule, lines + [line]) == RawMerges(rule, lines) +
            NextMerges(rule, lines, RawIds(rule, lines), line)
  {
    assert (lines + [line])[..|lines|] == lines;
  }

  /** All ids of the one polygon get the id of the other one. */
  function Relabelled(roots: seq<nat>, m: Merge): (r: seq<nat>)
    ensures |r| == |roots|
  {
    seq(|roots|, k requires 0 <= k < |roots| =>
      if m.0 < |roots| && m.1 < |roots| && roots[k] == roots[m.0] then roots[m.1] else roots[k])
  }

  /** The final ids of n ids after some merges. */
  function Roots(n: nat, merges: seq<Merge>): (r: seq<nat>)
    ensures |r| == n
  {
    if merges == [] then seq(n, k => k) else Relabelled(Roots(n, merges[..|merges| - 1]), merges[|merges| - 1])
  }

  /** The final id of every raw id of a raster. */
  function FinalIdsOf<T>(rule: Rule<T>, lines: seq<seq<T>>): (r: seq<nat>)
    requires Rectangular(lines)
    ensures |r| == RawIds(rule, lines).next
  {
    Roots(RawIds(rule, lines).next, RawMerges(rule, lines))
  }

  ghost predicate MergesBelow(merges: seq<Merge>, n: nat) {
    forall j :: 0 <= j < |merges| ==> merges[j].0 < n && merges[j].1 < n
  }

  lemma {:induction false} RootsBelow(n: nat, merges: seq<Merge>)
    ensures forall k :: 0 <= k < n ==> Roots(n, merges)[k] < n
  {
    if merges != [] {
      RootsBelow(n, merges[..|merges| - 1]);
    }
  }

  lemma RelabelledAppend(roots: seq<nat>, m: Merge)
    requires m.0 < |roots| && m.1 < |roots| && forall k :: 0 <= k < |roots| ==> roots[k] < |roots|
    ensures Relabelled(roots + [|roots|], m) == Relabelled(roots, m) + [|roots|]
  {
  }

  /** A new id is its own final id and changes no other one. */
  lemma {:induction false} RootsAppend(n: nat, merges: seq<Merge>)
    requires MergesBelow(merges, n)
    ensures Roots(n + 1, merges) == Roots(n, merges) + [n]
  {
    if merges == [] {
    } else {
      var front, m := merges[..|merges| - 1], merges[|merges| - 1];
      RootsAppend(n, front);
      RootsBelow(n, front);
      RelabelledAppend(Roots(n, front), m);
      hide Relabelled;
    }
  }

  /** The trees of the parent map are what the merges say. */
  ghost predicate RootsAre(map_: seq<nat>, rank: seq<nat>, merges: seq<Merge>) {
    && Ranked(map_, rank) && MergesBelow(merges, |map_|)
    && forall k :: 0 <= k < |map_| ==> Root(map_, rank, k) == Roots(|map_|, merges)[k]
  }

  lemma RootsMerged(map_: seq<nat>, rank: seq<nat>, map': seq<nat>, rank': seq<nat>, merges: seq<Merge>, a: nat, b: nat)
    requires RootsAre(map_, rank, merges) && a < |map_| && b < |map_| && MergedInto(map_, rank, map', rank', a, b)
    ensures RootsAre(map', rank', merges + [(a, b)])
  {
    var after := merges + [(a, b)];
    assert after[..|after| - 1] == merges;
    hide Root;
  }

  /** Merging what is in one tree changes nothing. */
  lemma RootsSkipped(map_: seq<nat>, rank: seq<nat>, merges: seq<Merge>, a: nat, b: nat)
    requires RootsAre(map_, rank, merges) && a < |map_| && b < |map_| && map_[a] == map_[b]
    ensures RootsAre(map_, rank, merges + [(a, b)])
  {
    var after := merges + [(a, b)];
    assert after[..|after| - 1] == merges;
    assert Root(map_, rank, a) == Root(map_, rank, b) by {
      assert Root(map_, rank, a) == Root(map_, rank, map_[a]);
      assert Root(map_, rank, b) == Root(map_, rank, map_[b]);
    }
    hide Root;
  }

  lemma RootsAppended(map_: seq<nat>, rank: seq<nat>, merges: seq<Merge>)
    requires RootsAre(map_, rank, merges)
    ensures RootsAre(map_ + [|map_|], rank + [0], merges)
  {
    var n := |map_|;
    RootsAppend(n, merges);
    assert Ranked(map_ + [n], rank + [0]);
    assert Root(map_ + [n], rank + [0], n) == n;
    hide Root, Roots, Ranked;
    forall k: nat | k <= n
      ensures Root(map_ + [n], rank + [0], k) == Roots(n + 1, merges)[k]
    {
      if k < n {
        AppendRoot(map_, rank, k);
      }
    }
  }

  // ---------------------------------------------------------------------
  // What the parent map means.
  // ---------------------------------------------------------------------

  /** Parent map with its rank, and the ids given so far, line by line; the
      last line may still be short. */
  datatype Labelling = Labelling(parents: seq<nat>, rank: seq<nat>, ids: seq<seq<nat>>)

  ghost predicate Proper(l: Labelling) {
    && Ranked(l.parents, l.rank)
    && forall p :: InLines(l.ids, p) ==> At(l.ids, p) < |l.parents|
  }

  /** The id that p's polygon is currently known by. */
  ghost function Tree(l: Labelling, p: Pixel): (r: nat)
    requires Proper(l) && InLines(l.ids, p)
  {
    Root(l.parents, l.rank, At(l.ids, p))
  }

  /** Pixels are never merged unless a path joins them. */
  ghost predicate Sound<T>(img: seq<seq<T>>, rule: Rule<T>, l: Labelling)
    requires Proper(l)
  {
    forall p, q :: InLines(l.ids, p) && InLines(l.ids, q) && Tree(l, p) == Tree(l, q) ==> Connected(img, rule, p, q)
  }

  /** Has p been given its id, and have its links back been followed? */
  ghost predicate Settled(ids: seq<seq<nat>>, done: nat, p: Pixel) {
    InLines(ids, p) && (p.y < |ids| - 1 || p.x < done)
  }

  /** Every link between settled pixels has been merged. */
  ghost predicate Agree<T>(img: seq<seq<T>>, rule: Rule<T>, l: Labelling, done: nat)
    requires Proper(l)
  {
    forall p, q :: Settled(l.ids, done, p) && Settled(l.ids, done, q) && Linked(img, rule, p, q)
      ==> Tree(l, p) == Tree(l, q)
  }

  /** Every id was created for some pixel, whose value it still carries. */
  ghost predicate Witnessed<T>(img: seq<seq<T>>, l: Labelling, values: seq<T>, witness_: seq<Pixel>) {
    && |values| == |l.parents| == |witness_|
    && forall k :: 0 <= k < |values| ==>
         && InLines(l.ids, witness_[k]) && At(l.ids, witness_[k]) == k
         && InLines(img, witness_[k]) && At(img, witness_[k]) == values[k]
  }

  /** The four pixels a pixel can be linked back to. */
  predicate Behind(conn: int, p: Pixel, q: Pixel) {
    || q == Pixel(p.x - 1, p.y)
    || q == Pixel(p.x, p.y - 1)
    || (conn == 8 && (q == Pixel(p.x - 1, p.y - 1) || q == Pixel(p.x + 1, p.y - 1)))
  }

  /** A pixel that is not linked back: a polygon is started for it. */
  ghost predicate Starts<T>(img: seq<seq<T>>, rule: Rule<T>, p: Pixel) {
    InLines(img, p) && forall q :: Behind(rule.conn, p, q) ==> !Linked(img, rule, p, q)
  }

  ghost predicate AllStart<T>(img: seq<seq<T>>, rule: Rule<T>, witness_: seq<Pixel>) {
    forall k :: 0 <= k < |witness_| ==> Starts(img, rule, witness_[k])
  }

  lemma StartsMoreLines<T>(img: seq<seq<T>>, line: seq<T>, rule: Rule<T>, witness_: seq<Pixel>)
    requires AllStart(img, rule, witness_)
    ensures AllStart(img + [line], rule, witness_)
  {
    forall k, q | 0 <= k < |witness_| && Behind(rule.conn, witness_[k], q)
      ensures !Linked(img + [line], rule, witness_[k], q)
    {
      assert Starts(img, rule, witness_[k]);
      assert q.y <= witness_[k].y < |img|;
      if InLines(img, q) {
        LinkedMoreLines(img, line, rule, witness_[k], q);
      }
    }
  }

  ghost predicate Labels<T>(img: seq<seq<T>>, rule: Rule<T>, l: Labelling, done: nat, values: seq<T>,
                            witness_: seq<Pixel>) {
    && Proper(l)
    && Sound(img, rule, l)
    && Agree(img, rule, l, done)
    && Witnessed(img, l, values, witness_) && AllStart(img, rule, witness_)
  }

  /** What MergePolygon(a, b) does to every id. */
  ghost predicate MergedInto(parents: seq<nat>, rank: seq<nat>, parents': seq<nat>, rank': seq<nat>, a: nat, b: nat)
    requires Ranked(parents, rank) && a < |parents| && b < |parents|
  {
    && |parents'| == |parents| && Ranked(parents', rank')
    && forall k :: 0 <= k < |parents| ==>
         Root(parents', rank', k)
         == if Root(parents, rank, k) == Root(parents, rank, a) then Root(parents, rank, b) else Root(parents, rank, k)
  }

  ghost predicate KeepsTogether(l: Labelling, l': Labelling)
    requires Proper(l) && Proper(l')
  {
    && l'.ids == l.ids
    && forall r, s :: InLines(l.ids, r) && InLines(l.ids, s) && Tree(l, r) == Tree(l, s) ==> Tree(l', r) == Tree(l', s)
  }

  lemma MergeKeepsLabels<T(!new)>(img: seq<seq<T>>, rule: Rule<T>, l: Labelling, l': Labelling, done: nat,
                                  values: seq<T>, witness_: seq<Pixel>, p: Pixel, q: Pixel)
    requires ValidRule(rule) && Labels(img, rule, l, done, values, witness_)
    requires InLines(l.ids, p) && InLines(l.ids, q) && Connected(img, rule, p, q)
    requires l'.ids == l.ids && MergedInto(l.parents, l.rank, l'.parents, l'.rank, At(l.ids, p), At(l.ids, q))
    ensures Labels(img, rule, l', done, values, witness_)
    ensures Tree(l', p) == Tree(l', q)
    ensures KeepsTogether(l, l')
  {
    ConnectedSymmetric(img, rule, p, q);
    forall r, s | InLines(l'.ids, r) && InLines(l'.ids, s) && Tree(l', r) == Tree(l', s)
      ensures Connected(img, rule, r, s)
    {
      if Tree(l, r) != Tree(l, s) {
        if Tree(l, r) == Tree(l, p) {
          ConnectedTransitive(img, rule, r, p, q);
          ConnectedTransitive(img, rule, r, q, s);
        } else {
          ConnectedTransitive(img, rule, r, q, p);
          ConnectedTransitive(img, rule, r, p, s);
        }
      }
    }
  }

  /** Opening a line changes nothing yet. */
  lemma OpenLine<T>(img: seq<seq<T>>, line: seq<T>, rule: Rule<T>, l: Labelling, done: nat, values: seq<T>,
                    witness_: seq<Pixel>)
    requires Labels(img, rule, l, done, values, witness_)
    requires |l.ids| == |img| && forall j :: 0 <= j < |img| ==> |l.ids[j]| == |img[j]|
    requires |img| > 0 ==> done >= |img[|img| - 1]|
    ensures Labels(img + [line], rule, l.(ids := l.ids + [[]]), 0, values, witness_)
  {
    hide Linked, Connected, Starts;
    var l' := l.(ids := l.ids + [[]]);
    assert forall p :: InLines(l'.ids, p) ==> InLines(l.ids, p) && At(l'.ids, p) == At(l.ids, p);
    assert forall p :: InLines(l.ids, p) ==> InLines(img, p) && At(img + [line], p) == At(img, p);
    StartsMoreLines(img, line, rule, witness_);
    forall p, q | InLines(l'.ids, p) && InLines(l'.ids, q) && Tree(l', p) == Tree(l', q)
      ensures Connected(img + [line], rule, p, q)
    {
      assert Tree(l, p) == Tree(l, q);
      ConnectedMoreLines(img, line, rule, p, q);
    }
    forall p, q | Settled(l'.ids, 0, p) && Settled(l'.ids, 0, q) && Linked(img + [line], rule, p, q)
      ensures Tree(l', p) == Tree(l', q)
    {
      LinkedMoreLines(img, line, rule, p, q);
      assert Settled(l.ids, done, p) && Settled(l.ids, done, q);
      assert Tree(l, p) == Tree(l, q);
    }
  }

  /** The labelling after the open line's next pixel gets id k. */
  ghost function Extend(l: Labelling, k: nat): (l': Labelling)
    requires |l.ids| > 0
  {
    var y := |l.ids| - 1;
    l.(ids := l.ids[y := l.ids[y] + [k]])
  }

  /** The next pixel takes over the id of a linked pixel; its other links are
      still to be followed. */
  lemma CopyId<T(!new)>(img: seq<seq<T>>, rule: Rule<T>, l: Labelling, values: seq<T>, witness_: seq<Pixel>, q: Pixel)
    requires ValidRule(rule) && |l.ids| > 0
    requires Labels(img, rule, l, |l.ids[|l.ids| - 1]|, values, witness_)
    requires InLines(l.ids, q)
    requires var p := Pixel(|l.ids[|l.ids| - 1]|, |l.ids| - 1); Linked(img, rule, p, q)
    ensures Labels(img, rule, Extend(l, At(l.ids, q)), |l.ids[|l.ids| - 1]|, values, witness_)
  {
    hide AllStart, Connected;
    var i := |l.ids[|l.ids| - 1]|;
    var p := Pixel(i, |l.ids| - 1);
    var l' := Extend(l, At(l.ids, q));
    assert At(l'.ids, p) == At(l.ids, q);
    assert forall r :: InLines(l'.ids, r) ==> r == p || (InLines(l.ids, r) && At(l'.ids, r) == At(l.ids, r));
    assert Proper(l');
    ConnectedSelf(img, rule, p);
    LinkedConnected(img, rule, p, q);
    forall r, s | InLines(l'.ids, r) && InLines(l'.ids, s) && Tree(l', r) == Tree(l', s)
      ensures Connected(img, rule, r, s)
    {
      if r == p && s != p {
        assert Tree(l, q) == Tree(l, s);
        ConnectedTransitive(img, rule, p, q, s);
      } else if r != p && s == p {
        assert Tree(l, r) == Tree(l, q);
        ConnectedSymmetric(img, rule, p, q);
        ConnectedTransitive(img, rule, r, q, p);
      } else if r != p && s != p {
        assert Tree(l, r) == Tree(l, s);
      }
    }
    forall r, s | Settled(l'.ids, i, r) && Settled(l'.ids, i, s) && Linked(img, rule, r, s)
      ensures Tree(l', r) == Tree(l', s)
    {
      assert Settled(l.ids, i, r) && Settled(l.ids, i, s);
      assert Tree(l, r) == Tree(l, s);
    }
  }

  /** The next pixel has no link back: it gets a fresh id. */
  lemma FreshId<T(!new)>(img: seq<seq<T>>, rule: Rule<T>, l: Labelling, values: seq<T>, witness_: seq<Pixel>, v: T)
    requires ValidRule(rule) && |l.ids| > 0
    requires Labels(img, rule, l, |l.ids[|l.ids| - 1]|, values, witness_)
    requires var p := Pixel(|l.ids[|l.ids| - 1]|, |l.ids| - 1); Starts(img, rule, p) && At(img, p) == v
    ensures var p := Pixel(|l.ids[|l.ids| - 1]|, |l.ids| - 1);
            var k := |l.parents|;
            Labels(img, rule, Extend(l, k).(parents := l.parents + [k], rank := l.rank + [0]), p.x,
                   values + [v], witness_ + [p])
  {
    assert AllStart(img, rule, witness_ + [Pixel(|l.ids[|l.ids| - 1]|, |l.ids| - 1)]);
    hide AllStart, Connected, Starts;
    var i := |l.ids[|l.ids| - 1]|;
    var p := Pixel(i, |l.ids| - 1);
    var k := |l.parents|;
    var l' := Extend(l, k).(parents := l.parents + [k], rank := l.rank + [0]);
    assert Ranked(l'.parents, l'.rank);
    assert At(l'.ids, p) == k;
    assert forall r :: InLines(l'.ids, r) ==> r == p || (InLines(l.ids, r) && At(l'.ids, r) == At(l.ids, r));
    assert Proper(l');
    forall r | InLines(l.ids, r)
      ensures Tree(l', r) == Tree(l, r) < k
    {
      AppendRoot(l.parents, l.rank, At(l.ids, r));
    }
    assert Tree(l', p) == k;
    ConnectedSelf(img, rule, p);
    forall r, s | Settled(l'.ids, i, r) && Settled(l'.ids, i, s) && Linked(img, rule, r, s)
      ensures Tree(l', r) == Tree(l', s)
    {
      assert Settled(l.ids, i, r) && Settled(l.ids, i, s);
      assert Tree(l, r) == Tree(l, s);
    }
  }

  /** Once every link back from the newest pixel is merged, that pixel is settled. */
  lemma Settle<T(!new)>(img: seq<seq<T>>, rule: Rule<T>, l: Labelling, values: seq<T>, witness_: seq<Pixel>, i: nat)
    requires ValidRule(rule) && |l.ids| > 0 && |l.ids[|l.ids| - 1]| == i + 1
    requires Labels(img, rule, l, i, values, witness_)
    requires var p := Pixel(i, |l.ids| - 1);
             forall q :: InLines(l.ids, q) && Behind(rule.conn, p, q) && Linked(img, rule, p, q) ==>
                 Tree(l, p) == Tree(l, q)
    ensures Labels(img, rule, l, i + 1, values, witness_)
  {
    var p := Pixel(i, |l.ids| - 1);
    forall r, s | Settled(l.ids, i + 1, r) && Settled(l.ids, i + 1, s) && Linked(img, rule, r, s)
      ensures Tree(l, r) == Tree(l, s)
    {
      if r == p {
        assert Behind(rule.conn, p, s);
      } else if s == p {
        assert Behind(rule.conn, p, r);
        assert Linked(img, rule, p, r);
      } else {
        assert Settled(l.ids, i, r) && Settled(l.ids, i, s);
      }
    }
  }

  /** Where a pixel takes over the id of the one above it, a linked diagonal neighbour in the line above is already in
      the same polygon: ProcessLine does not test it. */
  lemma DiagonalImplied<T(!new)>(img: seq<seq<T>>, rule: Rule<T>, l: Labelling, i: nat, values: seq<T>,
                          witness_: seq<Pixel>, q: Pixel)
    requires ValidRule(rule) && rule.conn == 8 && |l.ids| > 1 && |l.ids[|l.ids| - 1]| == i + 1
    requires Labels(img, rule, l, i, values, witness_)
    requires var p, up := Pixel(i, |l.ids| - 1), Pixel(i, |l.ids| - 2);
             && InLines(l.ids, up) && Linked(img, rule, p, up) && Tree(l, p) == Tree(l, up)
             && InLines(l.ids, q) && q.y == up.y && (q.x == i - 1 || q.x == i + 1) && Linked(img, rule, p, q)
             && !Equal(img, rule, p, Pixel(i - 1, p.y))
    ensures Tree(l, Pixel(i, |l.ids| - 1)) == Tree(l, q)
  {
    var p, up := Pixel(i, |l.ids| - 1), Pixel(i, |l.ids| - 2);
    assert !Missed(img, rule, p, q);
    assert Linked(img, rule, up, q);
    assert Settled(l.ids, i, up) && Settled(l.ids, i, q);
  }

  /** The state of an enumerator between two lines. */
  ghost predicate Enumerated<T(!new)>(rule: Rule<T>, lines: seq<seq<T>>, l: Labelling, values: seq<T>,
                               origin: seq<Pixel>) {
    && ValidRule(rule)
    && Rectangular(lines)
    && Ids(l.ids, |l.parents|) == RawIds(rule, lines)
    && Labels(lines, rule, l, if |lines| == 0 then 0 else |lines[0]|, values, origin)
  }

  lemma EndLine<T(!new)>(rule: Rule<T>, lines: seq<seq<T>>, line: seq<T>, l: Labelling, next: nat, l': Labelling,
                         values: seq<T>, origin: seq<Pixel>)
    requires ValidRule(rule) && Rectangular(lines) && (lines != [] ==> |line| == |lines[0]|)
    requires Ids(l.ids, next) == RawIds(rule, lines) && |l'.ids| == |lines| + 1 && l'.ids[..|lines|] == l.ids
    requires (l'.ids[|lines|], |l'.parents|) == NextLine(rule, lines, Ids(l.ids, next), line)
    requires Labels(lines + [line], rule, l', |line|, values, origin)
    ensures Enumerated(rule, lines + [line], l', values, origin)
  {
    RawIdsStep(rule, lines, line);
  }

  lemma NothingEnumerated<T(!new)>(rule: Rule<T>)
    requires ValidRule(rule)
    ensures Enumerated(rule, [], Labelling([], [], []), [], [])
    ensures RootsAre([], [], []) && Rectangular<T>([]) && RawMerges(rule, []) == []
  {
  }

  class GDALRasterPolygonEnumerator<T(!new)> {
    const rule: Rule<T>
    var polyIdMap: seq<nat>
    var polyValue: seq<T>
    ghost var rank: seq<nat>
    ghost var origin: seq<Pixel>  // the pixel each id was created for
    ghost var lines: seq<seq<T>>  // the lines processed so far
    ghost var lineIds: seq<seq<nat>>  // the raw ids given to them
    ghost var merges: seq<Merge>  // what was to be merged so far

    ghost predicate IsForest()
      reads this
    {
      Ranked(polyIdMap, rank)
    }

    ghost function State(): Labelling
      reads this
    {
      Labelling(polyIdMap, rank, lineIds)
    }

    ghost predicate Valid()
      reads this
    {
      Enumerated(rule, lines, State(), polyValue, origin) && Merged()
    }

    /** The trees are those that the lines determine. */
    ghost predicate Merged()
      reads this`polyIdMap, this`rank, this`merges, this`lines
    {
      RootsAre(polyIdMap, rank, merges) && Rectangular(lines) && merges == RawMerges(rule, lines)
    }

    ghost predicate Known()
      reads this`polyIdMap, this`rank, this`merges
    {
      RootsAre(polyIdMap, rank, merges)
    }

    constructor (rule: Rule<T>)
      requires ValidRule(rule)
      ensures Valid() && lines == [] && lineIds == [] && polyIdMap == [] && this.rule == rule
    {
      NothingEnumerated(rule);
      hide Enumerated, RootsAre, RawMerges;
      this.rule := rule;
      polyIdMap, polyValue := [], [];
      rank, origin, lines, lineIds, merges := [], [], [], [], [];
    }

    method Clear()
      requires Valid()
      modifies this
      ensures Valid() && lines == [] && lineIds == [] && polyIdMap == []
    {
      assert ValidRule(rule);
      NothingEnumerated(rule);
      hide Enumerated, RootsAre, RawMerges;
      polyIdMap, polyValue := [], [];
      rank, origin, lines, lineIds, merges := [], [], [], [], [];
    }

    /** Every id of srcId's polygon ends up in dstId's polygon; nothing else moves. */
    method MergePolygon(srcId: nat, dstId: nat)
      requires IsForest() && srcId < |polyIdMap| && dstId < |polyIdMap|
      modifies this`polyIdMap, this`rank
      ensures MergedInto(old(polyIdMap), old(rank), polyIdMap, rank, srcId, dstId)
    {
      var dst: nat, src: nat := dstId, srcId;
      while polyIdMap[dst] != dst
        invariant dst < |polyIdMap| && Root(polyIdMap, rank, dst) == Root(polyIdMap, rank, dstId)
        decreases rank[dst]
      {
        dst := polyIdMap[dst];
      }
      while polyIdMap[src] != src
        invariant src < |polyIdMap| && Root(polyIdMap, rank, src) == Root(polyIdMap, rank, srcId)
        decreases rank[src]
      {
        src := polyIdMap[src];
      }
      if src == dst {
        return;
      }
      LinkKeepsForest(polyIdMap, rank, src, dst);
      forall k: nat | k < |polyIdMap|
        ensures Root(polyIdMap[src := dst], LinkRank(polyIdMap, rank, src, dst), k)
             == if Root(polyIdMap, rank, k) == src then dst else Root(polyIdMap, rank, k)
      {
        LinkRoot(polyIdMap, rank, src, dst, k);
      }
      polyIdMap, rank := polyIdMap[src := dst], LinkRank(polyIdMap, rank, src, dst);
    }

    method NewPolygon(newValue: T) returns (polyId: nat)
      requires IsForest() && |polyValue| == |polyIdMap|
      modifies this`polyIdMap, this`polyValue, this`rank
      ensures polyId == |old(polyIdMap)|
      ensures polyIdMap == old(polyIdMap) + [polyId] && polyValue == old(polyValue) + [newValue]
      ensures rank == old(rank) + [0] && IsForest()
    {
      polyId := |polyIdMap|;
      polyIdMap := polyIdMap + [polyId];
      polyValue := polyValue + [newValue];
      rank := rank + [0];
    }

    /** The labelling while a line is open: its first pixels have the ids cur. */
    ghost function Open(cur: seq<nat>): Labelling
      reads this
    {
      Labelling(polyIdMap, rank, lineIds + [cur])
    }

    ghost predicate OpenValid(thisVal: seq<T>, cur: seq<nat>, done: nat)
      reads this
    {
      && ValidRule(rule)
      && Proper(Open(cur))
      && Labels(lines + [thisVal], rule, Open(cur), done, polyValue, origin)
    }

    /** Ids sharing a parent are left alone, others are merged: either way the
        linked pixels p and q end up in one polygon. */
    method Follow(srcId: nat, dstId: nat, ghost thisVal: seq<T>, ghost cur: seq<nat>, ghost done: nat,
                  ghost p: Pixel, ghost q: Pixel)
      requires OpenValid(thisVal, cur, done) && Known()
      requires InLines(lineIds + [cur], p) && InLines(lineIds + [cur], q)
      requires srcId == At(lineIds + [cur], q) && dstId == At(lineIds + [cur], p)
      requires Linked(lines + [thisVal], rule, p, q)
      modifies this`polyIdMap, this`rank, this`merges
      ensures OpenValid(thisVal, cur, done) && |polyIdMap| == |old(polyIdMap)|
      ensures Known() && merges == old(merges) + [(srcId, dstId)]
      ensures Tree(Open(cur), p) == Tree(Open(cur), q)
      ensures KeepsTogether(old(Open(cur)), Open(cur))
    {
      hide RootsAre;
      if polyIdMap[srcId] != polyIdMap[dstId] {
        MergePolygon(srcId, dstId);
        ghost var img := lines + [thisVal];
        LinkedConnected(img, rule, p, q);
        ConnectedSymmetric(img, rule, p, q);
        MergeKeepsLabels(img, rule, old(Open(cur)), Open(cur), done, polyValue, origin, q, p);
        RootsMerged(old(polyIdMap), old(rank), polyIdMap, rank, merges, srcId, dstId);
      } else {
        RootsSkipped(polyIdMap, rank, merges, srcId, dstId);
      }
      merges := merges + [(srcId, dstId)];
    }

    /** The next pixel of the open line is (|cur|, |lines|), with a line above it. */
    ghost predicate Ready(lastVal: seq<T>, thisVal: seq<T>, cur: seq<nat>)
      reads this
    {
      && |lines| > 0 && lastVal == lines[|lines| - 1]
      && |lines| == |lineIds| && |lineIds[|lines| - 1]| == |lastVal| == |thisVal|
      && |cur| < |thisVal|
      && OpenValid(thisVal, cur, |cur|)
    }

    /** What ProcessLine leaves behind for one pixel that had n ids before it. */
    ghost predicate Done(lastVal: seq<T>, thisVal: seq<T>, cur: seq<nat>, n: nat, id: nat)
      reads this
      requires |lines| > 0 && |lines| == |lineIds| && |lastVal| == |thisVal| == |lineIds[|lines| - 1]| &&
               |cur| < |thisVal|
    {
      && OpenValid(thisVal, cur + [id], |cur| + 1)
      && match TakenId(rule, Some(lastVal), thisVal, lineIds[|lines| - 1], |cur|, cur)
         case Some(k) => id == k && |polyIdMap| == n
         case None => id == n && |polyIdMap| == n + 1
    }

    /** Same value as the pixel to the left: all links upwards are followed. */
    method ExtendLeft(lastVal: seq<T>, thisVal: seq<T>, i: nat, id: nat, upId: nat, upLeftId: nat, upRightId: nat,
                      ghost cur: seq<nat>)
      requires |cur| == i && Ready(lastVal, thisVal, cur) && Known()
      requires i > 0 && rule.eq(thisVal[i], thisVal[i - 1]) && id == cur[i - 1]
      requires var ids := lineIds[|lines| - 1];
               ids[i] == upId && ids[i - 1] == upLeftId && upRightId == if i < |thisVal| - 1 then ids[i + 1] else 0
      modifies this`polyIdMap, this`rank, this`merges
      ensures Done(lastVal, thisVal, cur, |old(polyIdMap)|, id) && Known()
      ensures merges == old(merges) + PixelMerges(rule, Some(lastVal), thisVal, lineIds[|lines| - 1], i, id)
    {
      hide Labels, RootsAre, PixelMerges, MergeIf;
      ghost var y := |lines|;
      ghost var p, cur' := Pixel(i, y), cur + [id];
      Take(thisVal, cur, Pixel(i - 1, y));
      CanFollowUp(lastVal, thisVal, i, cur', i - 1);
      CanFollowUp(lastVal, thisVal, i, cur', i);
      CanFollowUp(lastVal, thisVal, i, cur', i + 1);
      hide CanFollow;
      var up, upLeft, upRight := rule.eq(lastVal[i], thisVal[i]),
                                 rule.conn == 8 && rule.same(lastVal[i - 1], thisVal[i]),
                                 rule.conn == 8 && i < |thisVal| - 1 && rule.same(lastVal[i + 1], thisVal[i]);
      ghost var joined := FollowUp(up, upId, upLeft, upLeftId, upRight, upRightId, id, thisVal, cur', i, p,
                                   {Pixel(i - 1, y)});
      LeftMerges(lastVal, thisVal, lineIds[y - 1], i, id, old(merges));
      SettleLeft(lastVal, thisVal, i, cur', joined);
    }

    lemma LeftMerges(lastVal: seq<T>, thisVal: seq<T>, lastId: seq<nat>, i: nat, id: nat, before: seq<Merge>)
      requires 0 < i < |thisVal| == |lastVal| == |lastId| && rule.eq(thisVal[i], thisVal[i - 1])
      ensures before + PixelMerges(rule, Some(lastVal), thisVal, lastId, i, id)
           == before + MergeIf(rule.eq(lastVal[i], thisVal[i]), lastId[i], id)
              + MergeIf(rule.conn == 8 && rule.same(lastVal[i - 1], thisVal[i]), lastId[i - 1], id)
              + MergeIf(rule.conn == 8 && i < |thisVal| - 1 && rule.same(lastVal[i + 1], thisVal[i]),
                        if i < |thisVal| - 1 then lastId[i + 1] else 0, id)
    {
      hide MergeIf;
    }

    /** Merges the newest pixel with its neighbours in the line above that pass the tests. */
    method FollowUp(up: bool, upId: nat, upLeft: bool, upLeftId: nat, upRight: bool, upRightId: nat, id: nat,
                    ghost thisVal: seq<T>, ghost cur: seq<nat>, ghost done: nat, ghost p: Pixel,
                    ghost joined: set<Pixel>)
      returns (ghost joined': set<Pixel>)
      requires OpenValid(thisVal, cur, done) && Known()
      requires CanFollow(up, upId, id, thisVal, cur, p, Pixel(p.x, p.y - 1))
      requires CanFollow(upLeft, upLeftId, id, thisVal, cur, p, Pixel(p.x - 1, p.y - 1))
      requires CanFollow(upRight, upRightId, id, thisVal, cur, p, Pixel(p.x + 1, p.y - 1))
      requires Together(cur, p, joined)
      modifies this`polyIdMap, this`rank, this`merges
      ensures OpenValid(thisVal, cur, done) && |polyIdMap| == |old(polyIdMap)|
      ensures Known() && merges == old(merges) + MergeIf(up, upId, id) + MergeIf(upLeft, upLeftId, id)
                                   + MergeIf(upRight, upRightId, id)
      ensures Together(cur, p, joined') && joined <= joined'
      ensures up ==> Pixel(p.x, p.y - 1) in joined'
      ensures upLeft ==> Pixel(p.x - 1, p.y - 1) in joined'
      ensures upRight ==> Pixel(p.x + 1, p.y - 1) in joined'
    {
      CanFollowMeans(up, upId, id, thisVal, cur, p, Pixel(p.x, p.y - 1));
      hide OpenValid, Together, CanFollow, RootsAre, MergeIf;
      joined' := FollowIf(up, upId, id, thisVal, cur, done, p, Pixel(p.x, p.y - 1), joined);
      joined' := FollowIf(upLeft, upLeftId, id, thisVal, cur, done, p, Pixel(p.x - 1, p.y - 1), joined');
      joined' := FollowIf(upRight, upRightId, id, thisVal, cur, done, p, Pixel(p.x + 1, p.y - 1), joined');
    }

    lemma CanFollowMeans(linked: bool, srcId: nat, dstId: nat, thisVal: seq<T>, cur: seq<nat>, p: Pixel, q: Pixel)
      requires CanFollow(linked, srcId, dstId, thisVal, cur, p, q)
      ensures InLines(lineIds + [cur], p)
    {
    }

    /** p and q have these ids, and are linked if linked says so. */
    ghost predicate CanFollow(linked: bool, srcId: nat, dstId: nat, thisVal: seq<T>, cur: seq<nat>, p: Pixel, q: Pixel)
      reads this`lines, this`lineIds
    {
      && InLines(lineIds + [cur], p) && dstId == At(lineIds + [cur], p)
      && (linked ==>
            InLines(lineIds + [cur], q) && srcId == At(lineIds + [cur], q) && Linked(lines + [thisVal], rule, p, q))
    }

    lemma CanFollowUp(lastVal: seq<T>, thisVal: seq<T>, i: nat, cur: seq<nat>, x: int)
      requires ValidRule(rule) && 0 < i < |thisVal| == |lastVal| && |cur| == i + 1 &&
               rule.eq(thisVal[i], thisVal[i - 1])
      requires |lines| > 0 && |lines| == |lineIds| && lines[|lines| - 1] == lastVal &&
               |lineIds[|lines| - 1]| == |lastVal|
      requires i - 1 <= x <= i + 1
      ensures var linked := x < |thisVal| && if x == i then rule.eq(lastVal[x], thisVal[i])
                                             else rule.conn == 8 && rule.same(lastVal[x], thisVal[i]);
              CanFollow(linked, if x < |thisVal| then lineIds[|lines| - 1][x] else 0, cur[i], thisVal, cur,
                        Pixel(i, |lines|), Pixel(x, |lines| - 1))
    {
    }

    /** joined are the pixels whose polygon p has already become part of. */
    method FollowIf(linked: bool, srcId: nat, dstId: nat, ghost thisVal: seq<T>, ghost cur: seq<nat>, ghost done: nat,
                    ghost p: Pixel, ghost q: Pixel, ghost joined: set<Pixel>)
      returns (ghost joined': set<Pixel>)
      requires OpenValid(thisVal, cur, done) && Known()
      requires CanFollow(linked, srcId, dstId, thisVal, cur, p, q)
      requires Together(cur, p, joined)
      modifies this`polyIdMap, this`rank, this`merges
      ensures OpenValid(thisVal, cur, done) && |polyIdMap| == |old(polyIdMap)|
      ensures Known() && merges == old(merges) + MergeIf(linked, srcId, dstId)
      ensures joined' == joined + if linked then {q} else {}
      ensures Together(cur, p, joined')
    {
      hide RootsAre;
      if linked {
        Follow(srcId, dstId, thisVal, cur, done, p, q);
      }
      joined' := joined + if linked then {q} else {};
    }

    ghost predicate Together(cur: seq<nat>, p: Pixel, joined: set<Pixel>)
      reads this
      requires Proper(Open(cur)) && InLines(lineIds + [cur], p)
    {
      forall q :: q in joined ==> InLines(lineIds + [cur], q) && Tree(Open(cur), p) == Tree(Open(cur), q)
    }

    lemma SettleLeft(lastVal: seq<T>, thisVal: seq<T>, i: nat, cur: seq<nat>, joined: set<Pixel>)
      requires 0 < i < |thisVal| == |lastVal| && |cur| == i + 1 && |lines| > 0 && lines[|lines| - 1] == lastVal
      requires |lineIds| == |lines| && OpenValid(thisVal, cur, i) && rule.eq(thisVal[i], thisVal[i - 1])
      requires Together(cur, Pixel(i, |lines|), joined)
      requires var y := |lines|;
               && Pixel(i - 1, y) in joined
               && (rule.eq(lastVal[i], thisVal[i]) ==> Pixel(i, y - 1) in joined)
               && (rule.conn == 8 && rule.same(lastVal[i - 1], thisVal[i]) ==> Pixel(i - 1, y - 1) in joined)
               && (rule.conn == 8 && i < |thisVal| - 1 && rule.same(lastVal[i + 1], thisVal[i]) ==>
                   Pixel(i + 1, y - 1) in joined)
      ensures OpenValid(thisVal, cur, i + 1)
    {
      Settle(lines + [thisVal], rule, Open(cur), polyValue, origin, i);
    }

    /** Same value as the pixel above, other value than the pixel to the left. */
    lemma ExtendAbove(lastVal: seq<T>, thisVal: seq<T>, i: nat, cur: seq<nat>)
      requires |cur| == i && Ready(lastVal, thisVal, cur)
      requires !(i > 0 && rule.eq(thisVal[i], thisVal[i - 1])) && rule.eq(lastVal[i], thisVal[i])
      ensures Done(lastVal, thisVal, cur, |polyIdMap|, lineIds[|lines| - 1][i])
    {
      hide Labels;
      var y := |lines|;
      var p, up, cur' := Pixel(i, y), Pixel(i, y - 1), cur + [lineIds[y - 1][i]];
      var img := lines + [thisVal];
      assert Linked(img, rule, p, up) && !Equal(img, rule, p, Pixel(i - 1, y));
      hide Missed, Ranked, Root;
      Take(thisVal, cur, up);
      forall q | InLines(lineIds + [cur'], q) && Behind(rule.conn, p, q) && Linked(img, rule, p, q)
        ensures Tree(Open(cur'), p) == Tree(Open(cur'), q)
      {
        if q != up && q != Pixel(i - 1, y) {
          DiagonalImplied(img, rule, Open(cur'), i, polyValue, origin, q);
        }
      }
      Settle(img, rule, Open(cur'), polyValue, origin, i);
    }

    /** Only the diagonal pixels above can have the same value, and the left one does. */
    method ExtendUpLeft(lastVal: seq<T>, thisVal: seq<T>, i: nat, id: nat, upRightId: nat, ghost cur: seq<nat>)
      requires |cur| == i && Ready(lastVal, thisVal, cur) && Known() && rule.conn == 8
      requires i > 0 && !rule.eq(thisVal[i], thisVal[i - 1]) && !rule.eq(lastVal[i], thisVal[i]) &&
               rule.eq(lastVal[i - 1], thisVal[i])
      requires var ids := lineIds[|lines| - 1]; ids[i - 1] == id && upRightId == if i < |thisVal| - 1 then ids[i + 1]
               else 0
      modifies this`polyIdMap, this`rank, this`merges
      ensures Done(lastVal, thisVal, cur, |old(polyIdMap)|, id) && Known()
      ensures merges == old(merges) + PixelMerges(rule, Some(lastVal), thisVal, lineIds[|lines| - 1], i, id)
    {
      hide Labels, RootsAre, PixelMerges, MergeIf;
      ghost var y := |lines|;
      ghost var p, cur' := Pixel(i, y), cur + [id];
      Take(thisVal, cur, Pixel(i - 1, y - 1));
      ghost var joined := FollowIf(i < |thisVal| - 1 && rule.same(lastVal[i + 1], thisVal[i]), upRightId, id,
                                   thisVal, cur', i, p, Pixel(i + 1, y - 1), {Pixel(i - 1, y - 1)});
      UpLeftMerges(lastVal, thisVal, lineIds[y - 1], i, id);
      SettleUpLeft(lastVal, thisVal, i, cur', joined);
    }

    lemma UpLeftMerges(lastVal: seq<T>, thisVal: seq<T>, lastId: seq<nat>, i: nat, id: nat)
      requires 0 < i < |thisVal| == |lastVal| == |lastId| && rule.conn == 8 && !rule.eq(thisVal[i], thisVal[i - 1])
      requires !rule.eq(lastVal[i], thisVal[i]) && rule.eq(lastVal[i - 1], thisVal[i])
      ensures PixelMerges(rule, Some(lastVal), thisVal, lastId, i, id)
           == MergeIf(i < |thisVal| - 1 && rule.same(lastVal[i + 1], thisVal[i]),
                      if i < |thisVal| - 1 then lastId[i + 1] else 0, id)
    {
      hide MergeIf;
    }

    lemma SettleUpLeft(lastVal: seq<T>, thisVal: seq<T>, i: nat, cur: seq<nat>, joined: set<Pixel>)
      requires 0 < i < |thisVal| == |lastVal| && |cur| == i + 1 && |lines| > 0 && lines[|lines| - 1] == lastVal
      requires |lineIds| == |lines| && OpenValid(thisVal, cur, i)
      requires Together(cur, Pixel(i, |lines|), joined)
      requires !rule.eq(thisVal[i], thisVal[i - 1]) && !rule.eq(lastVal[i], thisVal[i])
      requires rule.eq(lastVal[i - 1], thisVal[i])
      requires Pixel(i - 1, |lines| - 1) in joined
      requires i < |thisVal| - 1 && rule.same(lastVal[i + 1], thisVal[i]) ==> Pixel(i + 1, |lines| - 1) in joined
      ensures OpenValid(thisVal, cur, i + 1)
    {
      Settle(lines + [thisVal], rule, Open(cur), polyValue, origin, i);
    }

    lemma ExtendUpRight(lastVal: seq<T>, thisVal: seq<T>, i: nat, cur: seq<nat>)
      requires |cur| == i && Ready(lastVal, thisVal, cur) && rule.conn == 8 && i < |thisVal| - 1
      requires i > 0 ==> !rule.eq(thisVal[i], thisVal[i - 1]) && !rule.eq(lastVal[i - 1], thisVal[i])
      requires !rule.eq(lastVal[i], thisVal[i]) && rule.eq(lastVal[i + 1], thisVal[i])
      ensures Done(lastVal, thisVal, cur, |polyIdMap|, lineIds[|lines| - 1][i + 1])
    {
      var y := |lines|;
      Take(thisVal, cur, Pixel(i + 1, y - 1));
      Settle(lines + [thisVal], rule, Open(cur + [lineIds[y - 1][i + 1]]), polyValue, origin, i);
    }

    /** One pixel of a line that has a line above it. */
    method ProcessPixel(lastLineVal: seq<T>, thisLineVal: seq<T>,
                        lastLineId: array<int>, lastOff: nat, thisLineId: array<int>, thisOff: nat, i: nat,
                        ghost cur: seq<nat>)
      requires |cur| == i && Ready(lastLineVal, thisLineVal, cur) && Known()
      requires lastLineId != thisLineId
      requires lastOff + |lastLineVal| <= lastLineId.Length && thisOff + |thisLineVal| <= thisLineId.Length
      requires lastLineId[lastOff..lastOff + |lastLineVal|] == lineIds[|lines| - 1]
      requires forall k :: 0 <= k < i ==> thisLineId[thisOff + k] == cur[k]
      modifies this`polyIdMap, this`polyValue, this`rank, this`origin, this`merges, thisLineId
      ensures forall k :: 0 <= k < thisLineId.Length && k != thisOff + i ==> thisLineId[k] == old(thisLineId[k])
      ensures thisLineId[thisOff + i] >= 0
      ensures Done(lastLineVal, thisLineVal, cur, |old(polyIdMap)|, thisLineId[thisOff + i]) && Known()
      ensures merges == old(merges) + PixelMerges(rule, Some(lastLineVal), thisLineVal, lineIds[|lines| - 1], i,
                                                  thisLineId[thisOff + i])
    {
      hide RootsAre, PixelMerges, MergeIf, Labels, Proper;
      ghost var ids := lineIds[|lines| - 1];
      assert forall k :: 0 <= k < |ids| ==> lastLineId[lastOff + k] == ids[k];
      var id: nat;
      if i > 0 && rule.eq(thisLineVal[i], thisLineVal[i - 1]) {
        assert thisLineId[thisOff + i - 1] == cur[i - 1];
        id := thisLineId[thisOff + i - 1];
        ExtendLeft(lastLineVal, thisLineVal, i, id, lastLineId[lastOff + i], lastLineId[lastOff + i - 1],
                   if i < |thisLineVal| - 1 then lastLineId[lastOff + i + 1] else 0, cur);
      } else if rule.eq(lastLineVal[i], thisLineVal[i]) {
        id := lastLineId[lastOff + i];
        ExtendAbove(lastLineVal, thisLineVal, i, cur);
        NoPixelMerges(rule, lastLineVal, thisLineVal, ids, i, id);
      } else if i > 0 && rule.conn == 8 && rule.eq(lastLineVal[i - 1], thisLineVal[i]) {
        id := lastLineId[lastOff + i - 1];
        ExtendUpLeft(lastLineVal, thisLineVal, i, id,
                     if i < |thisLineVal| - 1 then lastLineId[lastOff + i + 1] else 0, cur);
      } else if i < |thisLineVal| - 1 && rule.conn == 8 && rule.eq(lastLineVal[i + 1], thisLineVal[i]) {
        id := lastLineId[lastOff + i + 1];
        ExtendUpRight(lastLineVal, thisLineVal, i, cur);
        NoPixelMerges(rule, lastLineVal, thisLineVal, ids, i, id);
      } else {
        id := StartPolygon(thisLineVal, i, cur);
        NoPixelMerges(rule, lastLineVal, thisLineVal, ids, i, id);
      }
      assert old(merges) + [] == old(merges);
      thisLineId[thisOff + i] := id;
    }

    /** Taking over the id of a linked pixel keeps the open labelling. */
    lemma Take(thisVal: seq<T>, cur: seq<nat>, q: Pixel)
      requires OpenValid(thisVal, cur, |cur|) && |lineIds| == |lines|
      requires InLines(lineIds + [cur], q) && Linked(lines + [thisVal], rule, Pixel(|cur|, |lines|), q)
      ensures OpenValid(thisVal, cur + [At(lineIds + [cur], q)], |cur|)
      ensures var cur' := cur + [At(lineIds + [cur], q)]; Tree(Open(cur'), Pixel(|cur|, |lines|)) == Tree(Open(cur'), q)
    {
      var k := At(lineIds + [cur], q);
      CopyId(lines + [thisVal], rule, Open(cur), polyValue, origin, q);
      assert Extend(Open(cur), k).ids == lineIds + [cur + [k]];
    }

    /** A pixel without a link back starts a polygon of its own. */
    method StartPolygon(thisVal: seq<T>, i: nat, ghost cur: seq<nat>) returns (id: nat)
      requires |cur| == i < |thisVal| && OpenValid(thisVal, cur, i) && |lineIds| == |lines| && Known()
      requires var p := Pixel(i, |lines|);
               forall q :: Behind(rule.conn, p, q) ==> !Linked(lines + [thisVal], rule, p, q)
      modifies this`polyIdMap, this`polyValue, this`rank, this`origin
      ensures id == |old(polyIdMap)| && |polyIdMap| == id + 1 && Known()
      ensures OpenValid(thisVal, cur + [id], i + 1)
    {
      ghost var l := Open(cur);
      ghost var img := lines + [thisVal];
      ghost var p := Pixel(i, |lines|);
      FreshId(img, rule, l, polyValue, origin, thisVal[i]);
      RootsAppended(polyIdMap, rank, merges);
      hide RootsAre;
      id := NewPolygon(thisVal[i]);
      origin := origin + [p];
      assert Open(cur + [id]) == Extend(l, id).(parents := l.parents + [id], rank := l.rank + [0]) by {
        assert Extend(l, id).ids == lineIds + [cur + [id]];
      }
      Settle(img, rule, Open(cur + [id]), polyValue, origin, i);
    }

    lemma FirstLineLeft(thisVal: seq<T>, i: nat, cur: seq<nat>)
      requires 0 < i < |thisVal| && |cur| == i && OpenValid(thisVal, cur, i) && lines == [] && lineIds == []
      requires rule.eq(thisVal[i], thisVal[i - 1])
      ensures OpenValid(thisVal, cur + [cur[i - 1]], i + 1)
    {
      Take(thisVal, cur, Pixel(i - 1, 0));
      Settle(lines + [thisVal], rule, Open(cur + [cur[i - 1]]), polyValue, origin, i);
    }

    lemma BeginLine(thisVal: seq<T>)
      requires Valid() && (lines != [] ==> |thisVal| == |lines[0]|)
      ensures OpenValid(thisVal, [], 0)
    {
      OpenLine(lines, thisVal, rule, State(), if |lines| == 0 then 0 else |lines[0]|, polyValue, origin);
    }

    /** The next pixel of the open line, with or without a line above it. */
    method GiveId(lastLineVal: Option<seq<T>>, thisLineVal: seq<T>,
                  lastLineId: array<int>, lastOff: nat, thisLineId: array<int>, thisOff: nat, i: nat,
                  ghost lastId: seq<nat>, ghost next: nat, ghost cur: seq<nat>)
      requires |cur| == i < |thisLineVal| && |lines| == |lineIds| && (lastLineVal.None? <==> lines == [])
      requires lastLineId != thisLineId && thisOff + |thisLineVal| <= thisLineId.Length
      requires lastId == if lines == [] then [] else lineIds[|lines| - 1]
      requires lastLineVal.Some? ==>
                 && lastLineVal.value == lines[|lines| - 1] && |lastLineVal.value| == |thisLineVal| == |lastId|
                 && lastOff + |thisLineVal| <= lastLineId.Length
                 && lastLineId[lastOff..lastOff + |thisLineVal|] == lastId
      requires forall k :: 0 <= k < i ==> thisLineId[thisOff + k] == cur[k]
      requires (cur, |polyIdMap|) == LineIds(rule, lastLineVal, thisLineVal, lastId, next, i)
      requires OpenValid(thisLineVal, cur, i) && Known()
      modifies this`polyIdMap, this`polyValue, this`rank, this`origin, this`merges, thisLineId
      ensures forall k :: 0 <= k < thisLineId.Length && k != thisOff + i ==> thisLineId[k] == old(thisLineId[k])
      ensures thisLineId[thisOff + i] >= 0
      ensures var cur': seq<nat> := cur + [thisLineId[thisOff + i]];
              && (cur', |polyIdMap|) == LineIds(rule, lastLineVal, thisLineVal, lastId, next, i + 1)
              && OpenValid(thisLineVal, cur', i + 1)
      ensures Known()
      ensures merges == old(merges) + PixelMerges(rule, lastLineVal, thisLineVal, lastId, i, thisLineId[thisOff + i])
    {
      hide RootsAre;
      if lastLineVal.Some? {
        ProcessPixel(lastLineVal.value, thisLineVal, lastLineId, lastOff, thisLineId, thisOff, i, cur);
      } else if i == 0 || !rule.eq(thisLineVal[i], thisLineVal[i - 1]) {
        thisLineId[thisOff + i] := StartPolygon(thisLineVal, i, cur);
      } else {
        FirstLineLeft(thisLineVal, i, cur);
        thisLineId[thisOff + i] := thisLineId[thisOff + i - 1];
      }
    }

    /** Gives ids to the pixels of the next line.  Apart from the first call, the
        caller passes the previous line and the ids it was given. */
    method ProcessLine(lastLineVal: Option<seq<T>>, thisLineVal: seq<T>,
                       lastLineId: array<int>, lastOff: nat, thisLineId: array<int>, thisOff: nat)
      requires Valid() && Follows(lastLineVal, thisLineVal, lastLineId, lastOff)
      requires lastLineId != thisLineId && thisOff + |thisLineVal| <= thisLineId.Length
      modifies this`polyIdMap, this`polyValue, this`rank, this`origin, this`lines, this`lineIds, this`merges,
        thisLineId
      ensures Valid() && lines == old(lines) + [thisLineVal]
      ensures lineIds == old(lineIds) + [thisLineId[thisOff..thisOff + |thisLineVal|]]
      ensures forall k :: 0 <= k < thisLineId.Length && !(thisOff <= k < thisOff + |thisLineVal|)
                ==> thisLineId[k] == old(thisLineId[k])
    {
      hide Labels, RawIds, NextLine, Proper, RootsAre, RawMerges, NextMerges;
      BeginLine(thisLineVal);
      GiveIds(lastLineVal, thisLineVal, lastLineId, lastOff, thisLineId, thisOff);
      ghost var cur: seq<nat> := thisLineId[thisOff..thisOff + |thisLineVal|];
      RawMergesStep(rule, lines, thisLineVal);
      EndLine(rule, lines, thisLineVal, old(State()), |old(polyIdMap)|, Open(cur), polyValue, origin);
      lineIds := lineIds + [cur];
      lines := lines + [thisLineVal];
    }

    /** The caller hands over the line before this one, if there is one, and its ids. */
    ghost predicate Follows(lastVal: Option<seq<T>>, thisVal: seq<T>, lastId: array<int>, off: nat)
      reads this, lastId
    {
      && SameShape(lines, lineIds)
      && (lastVal.None? <==> lines == [])
      && (lastVal.Some? ==>
            && lastVal.value == lines[|lines| - 1] && |lastVal.value| == |thisVal|
            && off + |thisVal| <= lastId.Length
            && lastId[off..off + |thisVal|] == lineIds[|lines| - 1])
    }

    method GiveIds(lastLineVal: Option<seq<T>>, thisLineVal: seq<T>,
                   lastLineId: array<int>, lastOff: nat, thisLineId: array<int>, thisOff: nat)
      requires Follows(lastLineVal, thisLineVal, lastLineId, lastOff)
      requires lastLineId != thisLineId && thisOff + |thisLineVal| <= thisLineId.Length
      requires OpenValid(thisLineVal, [], 0) && Known()
      modifies this`polyIdMap, this`polyValue, this`rank, this`origin, this`merges, thisLineId
      ensures forall k :: 0 <= k < thisLineId.Length && !(thisOff <= k < thisOff + |thisLineVal|)
                ==> thisLineId[k] == old(thisLineId[k])
      ensures forall k :: thisOff <= k < thisOff + |thisLineVal| ==> thisLineId[k] >= 0
      ensures var cur: seq<nat> := thisLineId[thisOff..thisOff + |thisLineVal|];
              && OpenValid(thisLineVal, cur, |thisLineVal|)
              && (cur, |polyIdMap|) == NextLine(rule, lines, Ids(lineIds, |old(polyIdMap)|), thisLineVal)
      ensures Known()
      ensures merges == old(merges) + NextMerges(rule, lines, Ids(lineIds, |old(polyIdMap)|), thisLineVal)
    {
      hide OpenValid, LineIds, RootsAre, LineMerges, PixelMerges, TakenId;
      NoMerges(rule, lastLineVal, thisLineVal, if lines == [] then [] else lineIds[|lines| - 1], []);
      NoIds(rule, lastLineVal, thisLineVal, if lines == [] then [] else lineIds[|lines| - 1], |polyIdMap|);
      ghost var n := |thisLineVal|;
      ghost var next := |polyIdMap|;
      ghost var lastId := if lines == [] then [] else lineIds[|lines| - 1];
      ghost var cur: seq<nat> := [];
      var i := 0;
      while i < |thisLineVal|
        invariant i <= n && |cur| == i
        invariant forall k :: 0 <= k < i ==> thisLineId[thisOff + k] == cur[k]
        invariant forall k :: 0 <= k < thisLineId.Length && !(thisOff <= k < thisOff + n)
                    ==> thisLineId[k] == old(thisLineId[k])
        invariant (cur, |polyIdMap|) == LineIds(rule, lastLineVal, thisLineVal, lastId, next, i)
        invariant OpenValid(thisLineVal, cur, i) && Known()
        invariant merges == old(merges) + LineMerges(rule, lastLineVal, thisLineVal, lastId, cur, i)
      {
        GiveId(lastLineVal, thisLineVal, lastLineId, lastOff, thisLineId, thisOff, i, lastId, next, cur);
        NextPixelMerges(rule, lastLineVal, thisLineVal, lastId, cur, thisLineId[thisOff + i]);
        cur := cur + [thisLineId[thisOff + i]];
        i := i + 1;
      }
      SliceIs(thisLineId, thisOff, cur);
    }

    /** After this pass every id points straight at the final id of its polygon. */
    method CompleteMerges()
      requires Valid()
      modifies this`polyIdMap
      ensures Valid() && Flat() && |polyIdMap| == |old(polyIdMap)|
      ensures forall k :: 0 <= k < |polyIdMap| ==> polyIdMap[k] == Root(old(polyIdMap), rank, k)
    {
      hide RawMerges, RawIds, Labels;
      assert IsForest();
      hide RootsAre;
      Flatten();
      FlatRoots(polyIdMap, rank);
      SameRootsKeepLabels(lines, rule, old(State()), State(),
                          if |lines| == 0 then 0 else |lines[0]|, polyValue, origin);
      SameRootsAre(old(polyIdMap), polyIdMap, rank, merges);
    }

    method Flatten()
      requires IsForest()
      modifies this`polyIdMap
      ensures SameRoots(old(polyIdMap), polyIdMap, rank) && Flat()
    {
      ghost var before := polyIdMap;
      var poly := 0;
      while poly < |polyIdMap|
        invariant poly <= |polyIdMap| && SameRoots(before, polyIdMap, rank)
        invariant forall k :: 0 <= k < poly ==> polyIdMap[polyIdMap[k]] == polyIdMap[k]
      {
        while polyIdMap[poly] != polyIdMap[polyIdMap[poly]]
          invariant poly < |polyIdMap| && SameRoots(before, polyIdMap, rank)
          invariant forall k :: 0 <= k < poly ==> polyIdMap[polyIdMap[k]] == polyIdMap[k]
          decreases rank[polyIdMap[poly]]
        {
          ShortcutRoots(before, polyIdMap, rank, poly);
          polyIdMap := polyIdMap[poly := polyIdMap[polyIdMap[poly]]];
        }
        poly := poly + 1;
      }
    }

    /** Every id points at a root. */
    ghost predicate Flat()
      reads this
    {
      IsFlat(polyIdMap)
    }
  }

  /** The labelling theorem: once merges are complete, two pixels have the same
      final id exactly when a path of linked pixels joins them. */
  lemma SamePolygon<T(!new)>(e: GDALRasterPolygonEnumerator<T>, p: Pixel, q: Pixel)
    requires e.Valid() && e.Flat() && InLines(e.lines, p) && InLines(e.lines, q)
    ensures At(e.lineIds, p) < |e.polyIdMap| && At(e.lineIds, q) < |e.polyIdMap|
    ensures e.polyIdMap[At(e.lineIds, p)] == e.polyIdMap[At(e.lineIds, q)] <==> Connected(e.lines, e.rule, p, q)
  {
    hide RootsAre, RawMerges;
    var l := e.State();
    FlatRoots(e.polyIdMap, e.rank);
    assert InLines(l.ids, p) && InLines(l.ids, q);
    assert Tree(l, p) == e.polyIdMap[At(e.lineIds, p)] && Tree(l, q) == e.polyIdMap[At(e.lineIds, q)];
    if Connected(e.lines, e.rule, p, q) {
      var path :| Joins(e.lines, e.rule, path, p, q);
      var tree: Pixel -> nat := r => if InLines(l.ids, r) then Tree(l, r) else 0;
      forall r, s | Linked(e.lines, e.rule, r, s)
        ensures tree(r) == tree(s)
      {
        assert Settled(l.ids, |e.lines[0]|, r) && Settled(l.ids, |e.lines[0]|, s);
      }
      ConstantAlongPath(e.lines, e.rule, tree, path);
    }
  }

  /** A second enumerator fed the same lines hands out the same raw ids, so the
      first one's flattened map can be applied to them. */
  lemma Replay<T(!new)>(e: GDALRasterPolygonEnumerator<T>, f: GDALRasterPolygonEnumerator<T>, n: nat)
    requires e.Valid() && f.Valid() && e.rule == f.rule
    requires n <= |e.lines| && f.lines == e.lines[..n]
    ensures f.lineIds == e.lineIds[..n] && |f.polyIdMap| <= |e.polyIdMap|
  {
    RawIdsPrefix(e.rule, e.lines, n);
  }

  lemma {:induction false} RawIdsPrefix<T>(rule: Rule<T>, lines: seq<seq<T>>, n: nat)
    requires Rectangular(lines) && n <= |lines|
    ensures RawIds(rule, lines[..n]).lines == RawIds(rule, lines).lines[..n]
    ensures RawIds(rule, lines[..n]).next <= RawIds(rule, lines).next
    decreases |lines|
  {
    hide NextLine;
    if n == |lines| {
      assert lines[..n] == lines;
    } else {
      var m := |lines| - 1;
      RawIdsPrefix(rule, lines[..m], n);
      assert lines[..m][..n] == lines[..n];
      assert RawIds(rule, lines).lines[..m] == RawIds(rule, lines[..m]).lines;
    }
  }

  /** The final id of a pixel's polygon carries the value of some pixel of it. */
  lemma FinalIdWitness<T(!new)>(e: GDALRasterPolygonEnumerator<T>, k: nat) returns (p: Pixel)
    requires e.Valid() && e.Flat() && k < |e.polyIdMap|
    ensures InLines(e.lines, p) && At(e.lineIds, p) == k && At(e.lines, p) == e.polyValue[k] &&
            Starts(e.lines, e.rule, p)
  {
    p := e.origin[k];
  }

  /** Once merges are complete the map is determined by the raster alone. */
  lemma FinalIdsAre<T(!new)>(e: GDALRasterPolygonEnumerator<T>)
    requires e.Valid() && e.Flat()
    ensures Rectangular(e.lines) && e.lineIds == RawIds(e.rule, e.lines).lines
    ensures e.polyIdMap == FinalIdsOf(e.rule, e.lines)
  {
    hide RawIds, RawMerges, Labels, Roots;
    FlatRoots(e.polyIdMap, e.rank);
  }

  /** The pixel that the final id of its polygon was given out for. */
  ghost predicate IsRootPixel<T>(img: seq<seq<T>>, rule: Rule<T>, p: Pixel) {
    && Rectangular(img) && Starts(img, rule, p)
    && var k := At(RawIds(rule, img).lines, p); k < RawIds(rule, img).next && FinalIdsOf(rule, img)[k] == k
  }

  lemma {:induction false} LineIdsPrefix<T>(rule: Rule<T>, lastVal: Option<seq<T>>, thisVal: seq<T>, lastId: seq<nat>,
                                            next: nat, i: nat, n: nat)
    requires i <= n <= |thisVal| && (lastVal.Some? ==> |lastVal.value| == |lastId| == |thisVal|)
    ensures LineIds(rule, lastVal, thisVal, lastId, next, n).0[..i] ==
            LineIds(rule, lastVal, thisVal, lastId, next, i).0
  {
    hide TakenId;
    if i < n {
      LineIdsPrefix(rule, lastVal, thisVal, lastId, next, i, n - 1);
      assert LineIds(rule, lastVal, thisVal, lastId, next, n).0[..n - 1]
          == LineIds(rule, lastVal, thisVal, lastId, next, n - 1).0;
    }
  }

  ghost predicate AllBelow(ids: seq<nat>, n: nat) {
    forall k :: 0 <= k < |ids| ==> ids[k] < n
  }

  lemma {:induction false} LineIdsBelow<T>(rule: Rule<T>, lastVal: Option<seq<T>>, thisVal: seq<T>, lastId: seq<nat>,
                                           next: nat, n: nat)
    requires n <= |thisVal| && (lastVal.Some? ==> |lastVal.value| == |lastId| == |thisVal|) && AllBelow(lastId, next)
    ensures var r := LineIds(rule, lastVal, thisVal, lastId, next, n); AllBelow(r.0, r.1)
  {
    if n > 0 {
      LineIdsBelow(rule, lastVal, thisVal, lastId, next, n - 1);
      var before := LineIds(rule, lastVal, thisVal, lastId, next, n - 1);
      TakenIsBelow(rule, lastVal, thisVal, lastId, n - 1, before.0, before.1);
      hide TakenId;
    }
  }

  lemma TakenIsBelow<T>(rule: Rule<T>, lastVal: Option<seq<T>>, thisVal: seq<T>, lastId: seq<nat>, i: nat,
                        cur: seq<nat>,
                        next: nat)
    requires i < |thisVal| && |cur| == i && (lastVal.Some? ==> |lastVal.value| == |lastId| == |thisVal|)
    requires AllBelow(lastId, next) && AllBelow(cur, next)
    ensures var taken := TakenId(rule, lastVal, thisVal, lastId, i, cur); taken.Some? ==> taken.value < next
  {
  }

  /** A new id is greater than all ids before it. */
  lemma FreshIsGreater<T>(rule: Rule<T>, lastVal: Option<seq<T>>, thisVal: seq<T>, lastId: seq<nat>, next: nat, i: nat)
    requires i < |thisVal| && (lastVal.Some? ==> |lastVal.value| == |lastId| == |thisVal|)
    requires AllBelow(lastId, next)
    requires TakenId(rule, lastVal, thisVal, lastId, i, LineIds(rule, lastVal, thisVal, lastId, next, i).0) == None
    ensures var ids := LineIds(rule, lastVal, thisVal, lastId, next, |thisVal|).0;
            ids[i] >= next && forall k :: 0 <= k < i ==> ids[k] < ids[i]
  {
    var ids := LineIds(rule, lastVal, thisVal, lastId, next, |thisVal|).0;
    LineIdsBelow(rule, lastVal, thisVal, lastId, next, i);
    LineIdsPrefix(rule, lastVal, thisVal, lastId, next, i, |thisVal|);
    LineIdsPrefix(rule, lastVal, thisVal, lastId, next, i + 1, |thisVal|);
    hide TakenId;
    assert ids[i] == ids[..i + 1][i] == LineIds(rule, lastVal, thisVal, lastId, next, i).1;
    forall k | 0 <= k < i
      ensures ids[k] < ids[i]
    {
      assert ids[k] == ids[..i][k];
    }
  }

  /** The ids of the line above, and the next unused id, when a line is begun. */
  lemma LineAbove<T>(rule: Rule<T>, lines: seq<seq<T>>, y: nat)
    requires Rectangular(lines) && y < |lines|
    ensures Rectangular(lines[..y])
    ensures var before, lastVal := RawIds(rule, lines[..y]), if y == 0 then None else Some(lines[y - 1]);
            var lastId := if y == 0 then [] else before.lines[y - 1];
            && SameShape(lines[..y], before.lines) && (lastVal.Some? ==> |lastVal.value| == |lastId| == |lines[y]|)
            && RawIds(rule, lines).lines[y] == LineIds(rule, lastVal, lines[y], lastId, before.next, |lines[y]|).0
            && RawIds(rule, lines[..y + 1]).next == LineIds(rule, lastVal, lines[y], lastId, before.next, |lines[y]|).1
  {
    hide RawIds, LineIds;
    RawIdsPrefix(rule, lines, y + 1);
    assert lines[..y] + [lines[y]] == lines[..y + 1];
    RawIdsStep(rule, lines[..y], lines[y]);
    assert RawIds(rule, lines).lines[y] == RawIds(rule, lines).lines[..y + 1][y] ==
           RawIds(rule, lines[..y + 1]).lines[y];
  }

  /** All ids given out so far are less than the next one. */
  lemma {:induction false} RawIdsBelow<T>(rule: Rule<T>, lines: seq<seq<T>>, y: nat)
    requires Rectangular(lines) && y < |lines|
    ensures Rectangular(lines[..y + 1])
    ensures AllBelow(RawIds(rule, lines).lines[y], RawIds(rule, lines[..y + 1]).next)
  {
    LineAbove(rule, lines, y);
    var before := RawIds(rule, lines[..y]);
    if y > 0 {
      RawIdsBelow(rule, lines, y - 1);
      RawIdsPrefix(rule, lines, y);
      assert before.lines[y - 1] == RawIds(rule, lines).lines[..y][y - 1];
    }
    hide RawIds;
    LineIdsBelow(rule, if y == 0 then None else Some(lines[y - 1]), lines[y], if y == 0 then []
                 else before.lines[y - 1],
                 before.next, |lines[y]|);
  }

  /** What an enumerator that has been fed some of the lines has not given out yet is found below them only. */
  lemma GivenOutLater<T(!new)>(e: GDALRasterPolygonEnumerator<T>, f: GDALRasterPolygonEnumerator<T>, row: nat, p: Pixel)
    requires e.Valid() && f.Valid() && e.rule == f.rule && row < |e.lines| && f.lines == e.lines[..row + 1]
    requires InLines(e.lineIds, p) && At(e.lineIds, p) >= |f.polyIdMap|
    ensures p.y > row
  {
    hide RootsAre, RawMerges, Labels, RawIds;
    if p.y <= row {
      RawIdsBelow(e.rule, e.lines, p.y);
      assert e.lines[..row + 1][..p.y + 1] == e.lines[..p.y + 1];
      RawIdsPrefix(e.rule, e.lines[..row + 1], p.y + 1);
    }
  }

  /** No id is taken over for a pixel that starts a polygon. */
  lemma StartsTakesNone<T(!new)>(rule: Rule<T>, lines: seq<seq<T>>, p: Pixel, lastId: seq<nat>, cur: seq<nat>)
    requires ValidRule(rule) && Rectangular(lines) && Starts(lines, rule, p) && |cur| == p.x
    requires p.y > 0 ==> |lastId| == |lines[p.y]|
    ensures var lastVal := if p.y == 0 then None else Some(lines[p.y - 1]);
            TakenId(rule, lastVal, lines[p.y], lastId, p.x, cur) == None
  {
    var img, x, y := lines, p.x, p.y;
    if x > 0 {
      assert !Linked(img, rule, p, Pixel(x - 1, y));
    }
    if y > 0 {
      assert !Linked(img, rule, p, Pixel(x, y - 1));
      assert rule.conn == 8 && x > 0 ==> !Linked(img, rule, p, Pixel(x - 1, y - 1));
      assert rule.conn == 8 && x < |img[y]| - 1 ==> !Linked(img, rule, p, Pixel(x + 1, y - 1));
    }
  }

  /** Its id is greater than all ids before it. */
  lemma StartIsGreater<T(!new)>(rule: Rule<T>, lines: seq<seq<T>>, p: Pixel)
    requires ValidRule(rule) && Rectangular(lines) && Starts(lines, rule, p)
    ensures Rectangular(lines[..p.y]) && InLines(RawIds(rule, lines).lines, p)
    ensures var ids := RawIds(rule, lines).lines;
            ids[p.y][p.x] >= RawIds(rule, lines[..p.y]).next && forall x :: 0 <= x < p.x ==> ids[p.y][x] < ids[p.y][p.x]
  {
    var y := p.y;
    LineAbove(rule, lines, y);
    var before := RawIds(rule, lines[..y]);
    var lastVal, lastId := if y == 0 then None else Some(lines[y - 1]), if y == 0 then [] else before.lines[y - 1];
    if y > 0 {
      RawIdsBelow(rule, lines, y - 1);
      RawIdsPrefix(rule, lines, y);
      assert lastId == RawIds(rule, lines).lines[..y][y - 1];
    }
    hide RawIds;
    StartsTakesNone(rule, lines, p, lastId, LineIds(rule, lastVal, lines[y], lastId, before.next, p.x).0);
    FreshIsGreater(rule, lastVal, lines[y], lastId, before.next, p.x);
  }

  /** Different pixels that start polygons have different ids. */
  lemma StartsAreDistinct<T(!new)>(rule: Rule<T>, lines: seq<seq<T>>, p: Pixel, q: Pixel)
    requires ValidRule(rule) && Rectangular(lines) && Starts(lines, rule, p) && Starts(lines, rule, q)
    requires At(RawIds(rule, lines).lines, p) == At(RawIds(rule, lines).lines, q)
    ensures p == q
  {
    if p.y > q.y || (p.y == q.y && p.x > q.x) {
      StartsInOrder(rule, lines, q, p);
    } else if p != q {
      StartsInOrder(rule, lines, p, q);
    }
  }

  lemma SameRows<T>(rule: Rule<T>, lines: seq<seq<T>>)
    requires Rectangular(lines)
    ensures SameShape(lines, RawIds(rule, lines).lines)
  {
  }

  lemma StartsInOrder<T(!new)>(rule: Rule<T>, lines: seq<seq<T>>, p: Pixel, q: Pixel)
    requires ValidRule(rule) && Rectangular(lines) && Starts(lines, rule, p) && Starts(lines, rule, q)
    requires p.y < q.y || (p.y == q.y && p.x < q.x)
    ensures At(RawIds(rule, lines).lines, p) < At(RawIds(rule, lines).lines, q)
  {
    SameRows(rule, lines);
    hide RawIds, Starts;
    StartIsGreater(rule, lines, q);
    if p.y < q.y {
      RawIdsBelow(rule, lines, p.y);
      assert lines[..q.y][..p.y + 1] == lines[..p.y + 1];
      RawIdsPrefix(rule, lines[..q.y], p.y + 1);
    }
  }

  /** Every polygon has one root pixel only. */
  lemma RootPixelIsUnique<T(!new)>(e: GDALRasterPolygonEnumerator<T>, p: Pixel, q: Pixel)
    requires e.Valid() && e.Flat() && IsRootPixel(e.lines, e.rule, p) && IsRootPixel(e.lines, e.rule, q)
    requires Connected(e.lines, e.rule, p, q)
    ensures p == q
  {
    hide RawIds, RawMerges, Roots;
    FinalIdsAre(e);
    SamePolygon(e, p, q);
    StartsAreDistinct(e.rule, e.lines, p, q);
  }

  // ---------------------------------------------------------------------
  // Where adjacent equal pixels end up in different polygons.
  // ---------------------------------------------------------------------

  ghost predicate Transitive<T(!new)>(rule: Rule<T>) {
    forall a, b, c :: rule.eq(a, b) && rule.eq(b, c) ==> rule.eq(a, c)
  }

  /** Equal values are the same. */
  ghost predicate Strict<T(!new)>(rule: Rule<T>) {
    forall a, b :: rule.eq(a, b) ==> rule.same(a, b)
  }

  /** All values are equal. */
  ghost predicate Uniform<T(!new)>(rule: Rule<T>) {
    forall a, b :: rule.eq(a, b)
  }

  ghost predicate AdjacentTogether<T>(img: seq<seq<T>>, rule: Rule<T>) {
    forall p, q :: Adjacent(rule.conn, p, q) && Equal(img, rule, p, q) ==> Connected(img, rule, p, q)
  }

  lemma NothingMissed<T(!new)>(img: seq<seq<T>>, rule: Rule<T>, p: Pixel, q: Pixel)
    requires ValidRule(rule) && (p.y == q.y || rule.conn == 4 || (Transitive(rule) && Strict(rule)))
    requires Adjacent(rule.conn, p, q) && Equal(img, rule, p, q)
    ensures Linked(img, rule, p, q)
  {
  }

  /** Where all values are equal, diagonal neighbours are joined by way of a third pixel. */
  lemma JoinedAround<T(!new)>(img: seq<seq<T>>, rule: Rule<T>, lower: Pixel, upper: Pixel)
    requires ValidRule(rule) && Uniform(rule) && Rectangular(img) && lower.y == upper.y + 1
    requires Adjacent(rule.conn, lower, upper) && Equal(img, rule, lower, upper)
    ensures Connected(img, rule, lower, upper) && Connected(img, rule, upper, lower)
  {
    var up := Pixel(lower.x, upper.y);
    LinkedConnected(img, rule, lower, up);
    if up != upper {
      LinkedConnected(img, rule, up, upper);
      ConnectedTransitive(img, rule, lower, up, upper);
    }
    ConnectedSymmetric(img, rule, lower, upper);
  }

  /** Three values of which the ends differ: the diagonal is missed, and nothing else joins its pixels. */
  lemma DiagonalNotTested<T(!new)>(rule: Rule<T>, a: T, b: T, c: T)
    requires ValidRule(rule) && rule.conn == 8 && rule.eq(a, b) && rule.eq(b, c) && !rule.eq(a, c)
    ensures !AdjacentTogether([[a, c], [b, a]], rule)
  {
    var img := [[a, c], [b, a]];
    var p, q := Pixel(0, 1), Pixel(1, 0);
    assert Missed(img, rule, p, q);
    forall r
      ensures !Linked(img, rule, r, q) && !Linked(img, rule, q, r)
    {
      assert Adjacent(8, r, q) && InLines(img, r) ==> r == p || r == Pixel(0, 0) || r == Pixel(1, 1);
    }
    Alone(img, rule, p, q);
    assert Adjacent(8, p, q) && Equal(img, rule, p, q);
  }

  /** Two equal values that are not the same, and another one: the diagonal fails its test. */
  lemma DiagonalNotSame<T(!new)>(rule: Rule<T>, c: T, d: T, z: T)
    requires ValidRule(rule) && rule.conn == 8 && rule.eq(c, d) && !rule.same(c, d)
    requires !rule.eq(z, c) && !rule.eq(z, d)
    ensures !AdjacentTogether([[z, z, c], [d, d, z]], rule)
  {
    var img := [[z, z, c], [d, d, z]];
    var p, q := Pixel(1, 1), Pixel(2, 0);
    assert Missed(img, rule, p, q);
    forall r
      ensures !Linked(img, rule, r, q) && !Linked(img, rule, q, r)
    {
      assert Adjacent(8, r, q) && InLines(img, r) ==> r == p || r == Pixel(1, 0) || r == Pixel(2, 1);
    }
    Alone(img, rule, p, q);
    assert Adjacent(8, p, q) && Equal(img, rule, p, q);
  }

  lemma Alone<T>(img: seq<seq<T>>, rule: Rule<T>, p: Pixel, q: Pixel)
    requires p != q && forall r :: !Linked(img, rule, r, q) && !Linked(img, rule, q, r)
    ensures !Connected(img, rule, p, q)
  {
    if Connected(img, rule, p, q) {
      var path :| Joins(img, rule, path, p, q);
      ConstantAlongPath(img, rule, (r: Pixel) => r == q, path);
    }
  }

  /** Adjacent equal pixels are in one polygon of every raster exactly if the rule is one of three kinds. */
  lemma AdjacentTogetherExactlyIf<T(!new)>(rule: Rule<T>)
    requires ValidRule(rule)
    ensures (forall img: seq<seq<T>> | Rectangular(img) :: AdjacentTogether(img, rule))
       <==> (rule.conn == 4 || Uniform(rule) || (Transitive(rule) && Strict(rule)))
  {
    if rule.conn == 4 || Uniform(rule) || (Transitive(rule) && Strict(rule)) {
      forall img: seq<seq<T>>, p, q | Rectangular(img) && Adjacent(rule.conn, p, q) && Equal(img, rule, p, q)
        ensures Connected(img, rule, p, q)
      {
        AdjacentConnected(img, rule, p, q);
      }
    } else if !Transitive(rule) {
      var a, b, c :| rule.eq(a, b) && rule.eq(b, c) && !rule.eq(a, c);
      DiagonalNotTested(rule, a, b, c);
      assert Rectangular([[a, c], [b, a]]);
    } else {
      var c, d :| rule.eq(c, d) && !rule.same(c, d);
      var x, y :| !rule.eq(x, y);
      var z := if rule.eq(x, d) then y else x;
      DiagonalNotSame(rule, c, d, z);
      assert Rectangular([[z, z, c], [d, d, z]]);
    }
  }

  lemma AdjacentConnected<T(!new)>(img: seq<seq<T>>, rule: Rule<T>, p: Pixel, q: Pixel)
    requires ValidRule(rule) && (rule.conn == 4 || Uniform(rule) || (Transitive(rule) && Strict(rule)))
    requires Rectangular(img) && Adjacent(rule.conn, p, q) && Equal(img, rule, p, q)
    ensures Connected(img, rule, p, q)
  {
    if p.y == q.y || !Uniform(rule) {
      NothingMissed(img, rule, p, q);
      LinkedConnected(img, rule, p, q);
    } else if p.y > q.y {
      JoinedAround(img, rule, p, q);
    } else {
      JoinedAround(img, rule, q, p);
    }
  }

  // ---------------------------------------------------------------------
  // Feeding a raster line by line, with two line buffers that are swapped.
  // ---------------------------------------------------------------------

  /** e has been fed the first row lines of img; lastVal and lastId are the last of
      them and its ids, which start at off. */
  ghost predicate Replaying<T(!new)>(e: GDALRasterPolygonEnumerator<T>, rule: Rule<T>, img: seq<seq<T>>, row: nat,
                                     lastVal: Option<seq<T>>, lastId: array<int>, off: nat)
    reads e, lastId
  {
    && row <= |img|
    && e.Valid() && e.rule == rule && e.lines == img[..row] && |e.lineIds| == row
    && lastVal == (if row == 0 then None else Some(img[row - 1]))
    && (row > 0 ==> off + |img[row - 1]| <= lastId.Length && lastId[off..off + |img[row - 1]|] == e.lineIds[row - 1])
  }

  method NextLineIds<T(!new)>(e: GDALRasterPolygonEnumerator<T>, lastVal: Option<seq<T>>, thisVal: seq<T>,
                              lastId: array<int>, thisId: array<int>, off: nat,
                              ghost rule: Rule<T>, ghost img: seq<seq<T>>, ghost row: nat)
    requires Replaying(e, rule, img, row, lastVal, lastId, off) && row < |img| && thisVal == img[row]
    requires lastId != thisId && off + |thisVal| <= thisId.Length
    requires Rectangular(img)
    modifies e, thisId
    ensures Replaying(e, rule, img, row + 1, Some(thisVal), thisId, off)
    ensures e.lineIds == old(e.lineIds) + [thisId[off..off + |thisVal|]]
    ensures |e.polyIdMap| >= |old(e.polyIdMap)|
    ensures forall i :: off <= i < off + |thisVal| ==> 0 <= thisId[i] < |e.polyIdMap|
    ensures forall i :: 0 <= i < thisId.Length && !(off <= i < off + |thisVal|) ==> thisId[i] == old(thisId[i])
  {
    hide RawIds, Labels, RootsAre, RawMerges, Starts, AllStart;
    assert img[..row + 1] == img[..row] + [thisVal];
    e.ProcessLine(lastVal, thisVal, lastId, off, thisId, off);
    IdsBelow(e);
    RawIdsPrefix(rule, e.lines, row);
    assert e.lines[..row] == old(e.lines);
    forall i | off <= i < off + |thisVal|
      ensures 0 <= thisId[i] < |e.polyIdMap|
    {
      assert e.lineIds[row][i - off] == thisId[i];
      assert InLines(e.lineIds, Pixel(i - off, row));
    }
  }

  lemma IdsBelow<T(!new)>(e: GDALRasterPolygonEnumerator<T>)
    requires e.Valid()
    ensures SameShape(e.lines, e.lineIds) && |e.polyIdMap| == |e.polyValue| && Rectangular(e.lines)
    ensures forall p :: InLines(e.lineIds, p) ==> At(e.lineIds, p) < |e.polyIdMap|
  {
  }

  /** Gives the next line the ids it was given when first was fed the whole raster. */
  method ReplayLine<T(!new)>(first: GDALRasterPolygonEnumerator<T>, e: GDALRasterPolygonEnumerator<T>,
                             lastVal: Option<seq<T>>, thisVal: seq<T>, lastId: array<int>, thisId: array<int>, off: nat,
                             ghost rule: Rule<T>, ghost img: seq<seq<T>>, ghost row: nat)
    requires first.Valid() && first.rule == rule && first.lines == img && e != first
    requires Replaying(e, rule, img, row, lastVal, lastId, off) && row < |img| && thisVal == img[row]
    requires lastId != thisId && off + |thisVal| <= thisId.Length
    modifies e, thisId
    ensures Replaying(e, rule, img, row + 1, Some(thisVal), thisId, off)
    ensures |first.lineIds| == |img| && thisId[off..off + |thisVal|] == first.lineIds[row]
    ensures |e.polyIdMap| <= |first.polyIdMap|
    ensures forall i :: 0 <= i < thisId.Length && !(off <= i < off + |thisVal|) ==> thisId[i] == old(thisId[i])
  {
    hide Enumerated, RootsAre, RawMerges;
    IdsBelow(first);
    NextLineIds(e, lastVal, thisVal, lastId, thisId, off, rule, img, row);
    Replay(first, e, row + 1);
  }

  lemma SliceIs<T>(a: array<T>, off: nat, s: seq<T>)
    requires off + |s| <= a.Length && forall k :: 0 <= k < |s| ==> a[off + k] == s[k]
    ensures a[off..off + |s|] == s
  {
  }

  ghost predicate IsFlat(map_: seq<nat>) {
    forall k :: 0 <= k < |map_| ==> map_[k] < |map_| && map_[map_[k]] == map_[k]
  }

  ghost predicate SameRoots(before: seq<nat>, now: seq<nat>, rank: seq<nat>) {
    && Ranked(before, rank) && Ranked(now, rank)
    && forall k :: 0 <= k < |before| ==> Root(now, rank, k) == Root(before, rank, k)
  }

  lemma ShortcutRoots(before: seq<nat>, now: seq<nat>, rank: seq<nat>, s: nat)
    requires SameRoots(before, now, rank) && s < |now|
    ensures SameRoots(before, now[s := now[now[s]]], rank)
  {
    forall k: nat | k < |now|
      ensures Ranked(now[s := now[now[s]]], rank)
      ensures Root(now[s := now[now[s]]], rank, k) == Root(before, rank, k)
    {
      ShortcutRoot(now, rank, s, k);
    }
  }

  lemma SameRootsAre(before: seq<nat>, now: seq<nat>, rank: seq<nat>, merges: seq<Merge>)
    requires SameRoots(before, now, rank) && RootsAre(before, rank, merges)
    ensures RootsAre(now, rank, merges)
  {
    hide Root, Roots;
  }

  lemma FlatRoots(map_: seq<nat>, rank: seq<nat>)
    requires Ranked(map_, rank)
    requires forall k :: 0 <= k < |map_| ==> map_[map_[k]] == map_[k]
    ensures forall k :: 0 <= k < |map_| ==> Root(map_, rank, k) == map_[k]
  {
    forall k: nat | k < |map_|
      ensures Root(map_, rank, k) == map_[k]
    {
      assert Root(map_, rank, map_[k]) == map_[k];
    }
  }

  lemma SameRootsKeepLabels<T>(img: seq<seq<T>>, rule: Rule<T>, l: Labelling, l': Labelling, done: nat,
                               values: seq<T>, witness_: seq<Pixel>)
    requires Labels(img, rule, l, done, values, witness_)
    requires l'.ids == l.ids && l'.rank == l.rank && SameRoots(l.parents, l'.parents, l.rank)
    ensures Labels(img, rule, l', done, values, witness_)
  {
    forall p | InLines(l.ids, p)
      ensures Tree(l', p) == Tree(l, p)
    {
    }
  }
}

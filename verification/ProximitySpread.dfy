/**
 * How targets spread in the passes of the proximity algorithm: what entries can name, what they go on naming, and what
 * they take over from their neighbours; and bounds for the distances found.
 */
module ProximitySpread {
  import opened Connectivity
  import opened Numbers
  import opened Proximities
  import opened Wrappers

  // ---------------------------------------------------------------------
  // What entries name.
  // ---------------------------------------------------------------------

  /** c is a target that a pass has seen on line y. */
  ghost predicate Offered(search: Search, down: bool, y: int, c: Pixel) {
    search.Has(c) && Seen(down, y, c)
  }

  /** Entries name targets that the pass has seen. */
  ghost predicate NamesSeen(search: Search, s: LineState, y: int, down: bool) {
    s.Valid(search.n) && forall i :: 0 <= i < search.n && s.nearX[i] != -1 ==> Offered(search, down, y, s.Near(i))
  }

  /** d is the squared distance of p to a target, within the maximal distance. */
  ghost predicate IsDistance(search: Search, p: Pixel, d: int) {
    d as real <= SquareReal(search.maxDist) && exists t :: search.Has(t) && DistSq(p, t) == d
  }

  /** Every proximity is -1 or that of a target. */
  ghost predicate Sound(search: Search, s: LineState, y: int) {
    s.Valid(search.n) && forall i :: 0 <= i < search.n && s.prox[i] != -1 ==> IsDistance(search, Pixel(i, y), s.prox[i])
  }

  ghost predicate Keeps(search: Search, s: LineState, y: int, down: bool) {
    NamesSeen(search, s, y, down) && Sound(search, s, y)
  }

  lemma DistSqPositive(p: Pixel, q: Pixel)
    ensures DistSq(p, q) >= 0 && (DistSq(p, q) == 0 <==> p == q)
  {
    SquareZero(q.x - p.x);
    SquareZero(q.y - p.y);
  }

  /** Apart from entry i nothing changes, and that names itself, or what it or one of its neighbours named. */
  lemma StepNames(search: Search, s: LineState, y: nat, i: nat, forward: bool)
    requires search.Valid() && y < |search.img| && i < search.n && s.Valid(search.n)
    ensures var s' := search.Stepped(s, y, i, forward);
            && (forall j :: 0 <= j < search.n && j != i ==> s'.Near(j) == s.Near(j) && s'.prox[j] == s.prox[j])
            && (search.Has(Pixel(i, y)) ==> s'.Near(i) == Pixel(i, y))
            && (s'.nearX[i] == -1 || (s'.Near(i) == Pixel(i, y) && search.Has(Pixel(i, y)))
                || exists k :: i - 1 <= k <= i + 1 && 0 <= k < search.n && s.nearX[k] != -1 && s'.Near(i) == s.Near(k))
            && (s'.prox[i] == s.prox[i] || (s'.nearX[i] != -1 && s'.prox[i] == DistSq(Pixel(i, y), s'.Near(i))
                                            && s'.prox[i] as real <= SquareReal(search.maxDist)))
  {
    hide SquareReal, Limit;
    var p, stride := Pixel(i, y), Stride(forward);
    DistSqPositive(p, p);
    RealSquarePositive(search.maxDist);
    hide DistSq;
    if !search.Has(p) {
      var limit := Limit(search.maxDist, search.n);
      var c1 := s.Kept(i, p, limit);
      var c2 := s.Considered(i - stride, p, c1);
      assert c1.at.x == -1 || (s.nearX[i] != -1 && c1.at == s.Near(i));
      assert c2.at == c1.at || (0 <= i - stride < search.n && s.nearX[i - stride] != -1 && c2.at == s.Near(i - stride));
    }
  }

  lemma RealSquarePositive(x: real)
    ensures SquareReal(x) >= 0.0
  {
  }

  /** What an entry or its neighbour names within range is taken over, unless there is something nearer. */
  lemma StepTakes(search: Search, s: LineState, y: nat, i: nat, forward: bool, k: int)
    requires search.Valid() && y < |search.img| && i < search.n && Sound(search, s, y)
    requires i - 1 <= k <= i + 1 && 0 <= k < search.n && s.nearX[k] != -1
    requires search.InRange(DistSq(Pixel(i, y), s.Near(k)))
    ensures var s' := search.Stepped(s, y, i, forward);
            var p := Pixel(i, y);
            && s'.nearX[i] != -1 && DistSq(p, s'.Near(i)) <= DistSq(p, s.Near(k))
            && (k == i && DistSq(p, s'.Near(i)) == DistSq(p, s.Near(i)) ==> s'.Near(i) == s.Near(i))
            && 0 <= s'.prox[i] <= DistSq(p, s'.Near(i))
  {
    var p := Pixel(i, y);
    DistSqPositive(p, p);
    DistSqPositive(p, s.Near(k));
    hide DistSq, Limit, SquareReal;
    var s' := search.Stepped(s, y, i, forward);
    DistSqPositive(p, s'.Near(i));
    if s.prox[i] != -1 {
      assert IsDistance(search, p, s.prox[i]);
      var t :| search.Has(t) && DistSq(p, t) == s.prox[i];
      DistSqPositive(p, t);
    }
  }

  lemma StepKeeps(search: Search, s: LineState, y: nat, i: nat, forward: bool, down: bool)
    requires search.Valid() && y < |search.img| && i < search.n && Keeps(search, s, y, down)
    ensures Keeps(search, search.Stepped(s, y, i, forward), y, down)
  {
    hide DistSq, SquareReal, Search.Stepped;
    StepNames(search, s, y, i, forward);
    var s' := search.Stepped(s, y, i, forward);
    forall j | 0 <= j < search.n && s'.nearX[j] != -1
      ensures Offered(search, down, y, s'.Near(j))
    {
    }
    forall j | 0 <= j < search.n && s'.prox[j] != -1
      ensures IsDistance(search, Pixel(j, y), s'.prox[j])
    {
      if s'.prox[j] != s.prox[j] {
        assert search.Has(s'.Near(i));
      }
    }
  }

  lemma {:induction false} SweepKeeps(search: Search, s: LineState, y: nat, forward: bool, k: nat, down: bool)
    requires search.Valid() && y < |search.img| && k <= search.n && s.Valid(search.n) && Keeps(search, s, y, down)
    ensures Keeps(search, search.Swept(s, y, forward, k), y, down)
  {
    hide Search.Stepped, Keeps;
    if k == 0 {
    } else {
      SweepKeeps(search, s, y, forward, k - 1, down);
      StepKeeps(search, search.Swept(s, y, forward, k - 1), y, Position(search.n, forward, k - 1), forward, down);
    }
  }

  lemma LineKeeps(search: Search, s: LineState, y: nat, down: bool)
    requires search.Valid() && y < |search.img| && s.Valid(search.n) && Keeps(search, s, y, down)
    ensures Keeps(search, search.LineSwept(s, y, down), y, down)
  {
    hide Keeps, Search.Swept;
    SweepKeeps(search, s, y, down, search.n, down);
    SweepKeeps(search, search.Swept(s, y, down, search.n), y, !down, search.n, down);
  }

  lemma {:induction false} PassKeeps(search: Search, y: nat, down: bool)
    requires search.Valid() && y < |search.img|
    ensures Keeps(search, search.Before(y, down), y, down) && Keeps(search, search.After(y, down), y, down)
    decreases !down, if down then y else |search.img| - 1 - y
  {
    hide Search.LineSwept, IsDistance;
    if y != (if down then 0 else |search.img| - 1) {
      PassKeeps(search, if down then y - 1 else y + 1, down);
    }
    if !down {
      PassKeeps(search, y, true);
    }
    LineKeeps(search, search.Before(y, down), y, down);
  }

  // ---------------------------------------------------------------------
  // Entries in a sweep.
  // ---------------------------------------------------------------------

  /** The number of entries that a sweep comes to before entry i. */
  function Earlier(n: nat, forward: bool, i: nat): nat
    requires i < n
  {
    if forward then i else n - 1 - i
  }

  ghost predicate SameEntry(search: Search, s: LineState, s': LineState, i: nat)
    requires s.Valid(search.n) && s'.Valid(search.n) && i < search.n
  {
    s'.Near(i) == s.Near(i) && s'.prox[i] == s.prox[i]
  }

  /** A sweep changes an entry only when it comes to it. */
  lemma {:induction false} SweptEntry(search: Search, s: LineState, y: nat, forward: bool, i: nat, j: nat, k: nat)
    requires search.Valid() && y < |search.img| && s.Valid(search.n) && i < search.n && j <= k <= search.n
    requires k <= Earlier(search.n, forward, i) || Earlier(search.n, forward, i) < j
    ensures SameEntry(search, search.Swept(s, y, forward, j), search.Swept(s, y, forward, k), i)
  {
    hide Search.Stepped;
    if j < k {
      SweptEntry(search, s, y, forward, i, j, k - 1);
      StepNames(search, search.Swept(s, y, forward, k - 1), y, Position(search.n, forward, k - 1), forward);
    }
  }

  /** The step that decides about entry i, in the states that matter: its own, and those of its neighbours. */
  lemma EntryStep(search: Search, s: LineState, y: nat, forward: bool, i: nat) returns (s1: LineState)
    requires search.Valid() && y < |search.img| && s.Valid(search.n) && i < search.n
    ensures s1 == search.Swept(s, y, forward, Earlier(search.n, forward, i))
    ensures SameEntry(search, s, s1, i)
    ensures SameEntry(search, search.Stepped(s1, y, i, forward), search.Swept(s, y, forward, search.n), i)
    ensures var before := i - Stride(forward);
            0 <= before < search.n ==> SameEntry(search, search.Swept(s, y, forward, search.n), s1, before)
    ensures var after := i + Stride(forward); 0 <= after < search.n ==> SameEntry(search, s, s1, after)
  {
    hide Search.Stepped, SameEntry;
    var k, before, after := Earlier(search.n, forward, i), i - Stride(forward), i + Stride(forward);
    s1 := search.Swept(s, y, forward, k);
    assert search.Swept(s, y, forward, 0) == s;
    SweptEntry(search, s, y, forward, i, 0, k);
    assert search.Swept(s, y, forward, k + 1) == search.Stepped(s1, y, i, forward);
    SweptEntry(search, s, y, forward, i, k + 1, search.n);
    if 0 <= before < search.n {
      SweptEntry(search, s, y, forward, before, k, search.n);
      SameEntrySymmetric(search, s1, search.Swept(s, y, forward, search.n), before);
    }
    if 0 <= after < search.n {
      SweptEntry(search, s, y, forward, after, 0, k);
    }
  }

  lemma SameEntrySymmetric(search: Search, s: LineState, s': LineState, i: nat)
    requires s.Valid(search.n) && s'.Valid(search.n) && i < search.n && SameEntry(search, s, s', i)
    ensures SameEntry(search, s', s, i)
  {
  }

  // ---------------------------------------------------------------------
  // Goals.
  // ---------------------------------------------------------------------

  /** Which targets it is good to name at a pixel. */
  type Goal = (Pixel, Pixel) -> bool

  /** What is named at q is good. */
  ghost predicate Serves(search: Search, s: LineState, q: Pixel, good: Goal)
    requires s.Valid(search.n)
  {
    0 <= q.x < search.n && s.nearX[q.x] != -1 && good(q, s.Near(q.x))
  }

  /** And the proximity is not greater than its distance. */
  ghost predicate Settled(search: Search, s: LineState, q: Pixel, good: Goal)
    requires s.Valid(search.n)
  {
    Serves(search, s, q, good) && 0 <= s.prox[q.x] <= DistSq(q, s.Near(q.x))
  }

  /** At q it stays good to name what is good already, or something nearer, and that is in range. */
  ghost predicate Stays(search: Search, down: bool, q: Pixel, good: Goal) {
    forall c, c' :: Offered(search, down, q.y, c) && Offered(search, down, q.y, c') && good(q, c) ==>
      search.InRange(DistSq(q, c)) && (DistSq(q, c') < DistSq(q, c) ==> good(q, c'))
  }

  /** From q' to its neighbour q on the line, it is good to name the same, or something as near. */
  ghost predicate Passes(search: Search, down: bool, q': Pixel, q: Pixel, good: Goal) {
    forall c, c' :: Offered(search, down, q.y, c) && Offered(search, down, q.y, c') && good(q', c) ==>
      search.InRange(DistSq(q, c)) && (DistSq(q, c') <= DistSq(q, c) ==> good(q, c'))
  }

  /** From q' on one line to q on the next, it is good to name the same. */
  ghost predicate Drops(search: Search, down: bool, q': Pixel, q: Pixel, good: Goal) {
    forall c :: Offered(search, down, q'.y, c) && good(q', c) ==> good(q, c)
  }

  /** A sweep leaves an entry served. */
  lemma SweepStays(search: Search, s: LineState, y: nat, forward: bool, down: bool, q: Pixel, good: Goal)
    requires search.Valid() && y < |search.img| && Keeps(search, s, y, down) && q.y == y
    requires Serves(search, s, q, good) && Stays(search, down, q, good)
    ensures Settled(search, search.Swept(s, y, forward, search.n), q, good)
  {
    hide DistSq, Search.Stepped, Search.Swept, Search.InRange;
    var s1 := EntryStep(search, s, y, forward, q.x);
    SweepKeeps(search, s, y, forward, Earlier(search.n, forward, q.x), down);
    StepKeeps(search, s1, y, q.x, forward, down);
    StepTakes(search, s1, y, q.x, forward, q.x);
  }

  /** A sweep serves an entry if it has served the one before. */
  lemma SweepPasses(search: Search, s: LineState, y: nat, forward: bool, down: bool, q': Pixel, q: Pixel, good: Goal)
    requires search.Valid() && y < |search.img| && Keeps(search, s, y, down)
    requires 0 <= q.x < search.n && q.y == y && q' == Pixel(q.x - Stride(forward), y)
    requires Serves(search, search.Swept(s, y, forward, search.n), q', good) && Passes(search, down, q', q, good)
    ensures Settled(search, search.Swept(s, y, forward, search.n), q, good)
  {
    hide DistSq, Search.Stepped, Search.Swept, Search.InRange;
    var s1 := EntryStep(search, s, y, forward, q.x);
    SweepKeeps(search, s, y, forward, Earlier(search.n, forward, q.x), down);
    StepKeeps(search, s1, y, q.x, forward, down);
    StepTakes(search, s1, y, q.x, forward, q'.x);
  }

  /** A sweep serves a target. */
  lemma SweepStarts(search: Search, s: LineState, y: nat, forward: bool, t: Pixel, good: Goal)
    requires search.Valid() && y < |search.img| && s.Valid(search.n)
    requires search.Has(t) && t.y == y && good(t, t)
    ensures Settled(search, search.Swept(s, y, forward, search.n), t, good)
  {
    hide Search.Swept;
    DistSqPositive(t, t);
    var s1 := EntryStep(search, s, y, forward, t.x);
  }

  // ---------------------------------------------------------------------
  // Runs along a line and from line to line.
  // ---------------------------------------------------------------------

  /** The pixel before q on the way from column e to q. */
  function Toward(e: int, q: Pixel): Pixel {
    Pixel(if e < q.x then q.x - 1 else q.x + 1, q.y)
  }

  /** From column e to column x of line y what is good can be passed on. */
  ghost predicate Run(search: Search, down: bool, y: int, e: int, x: int, good: Goal) {
    forall r :: (e < r <= x || x <= r < e) ==> Passes(search, down, Toward(e, Pixel(r, y)), Pixel(r, y), good)
  }

  /** A sweep from e to x passes on what is good along the way. */
  lemma {:induction false} SweepRuns(search: Search, s: LineState, y: nat, forward: bool, down: bool,
                                     e: int, x: int, good: Goal)
    requires search.Valid() && y < |search.img| && s.Valid(search.n) && Keeps(search, s, y, down)
    requires 0 <= e < search.n && 0 <= x < search.n && if forward then e <= x else x <= e
    requires Settled(search, search.Swept(s, y, forward, search.n), Pixel(e, y), good)
    requires Run(search, down, y, e, x, good)
    ensures Settled(search, search.Swept(s, y, forward, search.n), Pixel(x, y), good)
    decreases if forward then x - e else e - x
  {
    hide Search.Swept, Settled, Passes, Keeps;
    if x != e {
      var q' := Toward(e, Pixel(x, y));
      SweepRuns(search, s, y, forward, down, e, q'.x, good);
      SettledServes(search, search.Swept(s, y, forward, search.n), q', good);
      SweepPasses(search, s, y, forward, down, q', Pixel(x, y), good);
    }
  }

  lemma SettledServes(search: Search, s: LineState, q: Pixel, good: Goal)
    requires s.Valid(search.n) && Settled(search, s, q, good)
    ensures Serves(search, s, q, good)
  {
  }

  /** Where a line begins to be good: at a target, or at what the pass brings along. */
  ghost predicate Enters(search: Search, s: LineState, q: Pixel, good: Goal)
    requires s.Valid(search.n)
  {
    (search.Has(q) && good(q, q)) || Serves(search, s, q, good)
  }

  lemma SweepEnters(search: Search, s: LineState, y: nat, forward: bool, down: bool, q: Pixel, good: Goal)
    requires search.Valid() && y < |search.img| && s.Valid(search.n) && Keeps(search, s, y, down) && q.y == y
    requires Enters(search, s, q, good) && Stays(search, down, q, good)
    ensures Settled(search, search.Swept(s, y, forward, search.n), q, good)
  {
    hide Search.Swept, Settled, Stays, Keeps;
    if search.Has(q) && good(q, q) {
      SweepStarts(search, s, y, forward, q, good);
    } else {
      SweepStays(search, s, y, forward, down, q, good);
    }
  }

  /** Two sweeps pass on what is good from column e to column x, whichever direction that is. */
  lemma LineRuns(search: Search, s: LineState, y: nat, down: bool, e: int, x: int, good: Goal)
    requires search.Valid() && y < |search.img| && s.Valid(search.n) && Keeps(search, s, y, down)
    requires 0 <= e < search.n && 0 <= x < search.n && Enters(search, s, Pixel(e, y), good)
    requires Stays(search, down, Pixel(e, y), good) && Stays(search, down, Pixel(x, y), good)
    requires Run(search, down, y, e, x, good)
    ensures Settled(search, search.LineSwept(s, y, down), Pixel(x, y), good)
  {
    hide Search.Swept, Settled, Stays, Keeps, Run, Serves;
    var s1 := search.Swept(s, y, down, search.n);
    SweepKeeps(search, s, y, down, search.n, down);
    SweepEnters(search, s, y, down, down, Pixel(e, y), good);
    if if down then e <= x else x <= e {
      SweepRuns(search, s, y, down, down, e, x, good);
      SettledServes(search, s1, Pixel(x, y), good);
      SweepEnters(search, s1, y, !down, down, Pixel(x, y), good);
    } else {
      SettledServes(search, s1, Pixel(e, y), good);
      SweepEnters(search, s1, y, !down, down, Pixel(e, y), good);
      SweepRuns(search, s1, y, !down, down, e, x, good);
    }
  }

  /** The line that a pass comes to before line y. */
  function Previous(down: bool, y: int): int {
    if down then y - 1 else y + 1
  }

  /** From line y0 to line y what is good at column x can be passed on. */
  ghost predicate Fall(search: Search, down: bool, x: int, y0: int, y: int, good: Goal) {
    forall r :: (if down then y0 < r <= y else y <= r < y0) ==>
      && Drops(search, down, Pixel(x, Previous(down, r)), Pixel(x, r), good)
      && Stays(search, down, Pixel(x, r), good)
  }

  /** Entries are the same before a line as after the one before it. */
  lemma NextLine(search: Search, y: nat, down: bool, x: int, good: Goal)
    requires search.Valid() && y < |search.img| && 0 <= Previous(down, y) < |search.img|
    requires Settled(search, search.After(Previous(down, y), down), Pixel(x, Previous(down, y)), good)
    requires Drops(search, down, Pixel(x, Previous(down, y)), Pixel(x, y), good)
    ensures Enters(search, search.Before(y, down), Pixel(x, y), good)
  {
    hide Search.LineSwept;
    PassKeeps(search, Previous(down, y), down);
    hide Search.After;
    var near := search.After(Previous(down, y), down);
    assert search.Before(y, down).nearX == near.nearX && search.Before(y, down).nearY == near.nearY;
  }

  /** A pass passes on what is good at column x from line y0 to line y. */
  lemma {:induction false} PassFalls(search: Search, down: bool, x: int, y0: nat, y: nat, good: Goal)
    requires search.Valid() && y0 < |search.img| && y < |search.img| && 0 <= x < search.n
    requires if down then y0 <= y else y <= y0
    requires Settled(search, search.After(y0, down), Pixel(x, y0), good) && Fall(search, down, x, y0, y, good)
    ensures Settled(search, search.After(y, down), Pixel(x, y), good)
    decreases if down then y - y0 else y0 - y
  {
    hide Settled, Stays, Drops, Keeps, Search.LineSwept, Search.Before, Enters, Passes;
    if y != y0 {
      PassFalls(search, down, x, y0, Previous(down, y), good);
      NextLine(search, y, down, x, good);
      PassKeeps(search, y, down);
      LineRuns(search, search.Before(y, down), y, down, x, x, good);
    }
  }

  // ---------------------------------------------------------------------
  // The way of a target to a pixel.
  // ---------------------------------------------------------------------

  /** From t along its line to column a, in this column to the line of p, and along that to p. */
  ghost predicate Way(search: Search, down: bool, t: Pixel, a: int, p: Pixel, good: Goal) {
    && good(t, t) && Stays(search, down, t, good) && Stays(search, down, p, good)
    && if t.y == p.y then Run(search, down, p.y, t.x, p.x, good)
       else
         && Run(search, down, t.y, t.x, a, good) && Stays(search, down, Pixel(a, t.y), good)
         && Fall(search, down, a, t.y, p.y, good)
         && Run(search, down, p.y, a, p.x, good)
  }

  /** A pass serves a pixel that a target has a way to. */
  lemma WayServes(search: Search, down: bool, t: Pixel, a: int, p: Pixel, good: Goal)
    requires search.Valid() && search.Has(t) && InLines(search.img, p) && Seen(down, p.y, t) && 0 <= a < search.n
    requires Way(search, down, t, a, p, good)
    ensures Settled(search, search.After(p.y, down), p, good)
  {
    hide Settled, Stays, Keeps, Search.LineSwept, Search.Before, Run, Drops, Serves, Passes;
    PassKeeps(search, t.y, down);
    if t.y == p.y {
      LineRuns(search, search.Before(p.y, down), p.y, down, t.x, p.x, good);
    } else {
      LineRuns(search, search.Before(t.y, down), t.y, down, t.x, a, good);
      PassFalls(search, down, a, t.y, Previous(down, p.y), good);
      NextLine(search, p.y, down, a, good);
      PassKeeps(search, p.y, down);
      LineRuns(search, search.Before(p.y, down), p.y, down, a, p.x, good);
    }
  }

  // ---------------------------------------------------------------------
  // Distances found.
  // ---------------------------------------------------------------------

  /** Proximities only become lower. */
  lemma StepLowers(search: Search, s: LineState, y: nat, i: nat, forward: bool, j: nat)
    requires search.Valid() && y < |search.img| && i < search.n && j < search.n && Sound(search, s, y)
    requires s.prox[j] != -1
    ensures 0 <= search.Stepped(s, y, i, forward).prox[j] <= s.prox[j]
  {
    hide DistSq, Limit, SquareReal;
    assert IsDistance(search, Pixel(j, y), s.prox[j]);
    var t :| search.Has(t) && DistSq(Pixel(j, y), t) == s.prox[j];
    DistSqPositive(Pixel(j, y), t);
    StepNames(search, s, y, i, forward);
    DistSqPositive(Pixel(i, y), search.Stepped(s, y, i, forward).Near(i));
  }

  lemma {:induction false} SweepLowers(search: Search, s: LineState, y: nat, forward: bool, k: nat, down: bool, j: nat)
    requires search.Valid() && y < |search.img| && k <= search.n && j < search.n
    requires s.Valid(search.n) && Keeps(search, s, y, down) && s.prox[j] != -1
    ensures 0 <= search.Swept(s, y, forward, k).prox[j] <= s.prox[j]
  {
    hide Search.Stepped, IsDistance;
    if k == 0 {
      SoundPositive(search, s, y, j);
    } else {
      SweepLowers(search, s, y, forward, k - 1, down, j);
      SweepKeeps(search, s, y, forward, k - 1, down);
      StepLowers(search, search.Swept(s, y, forward, k - 1), y, Position(search.n, forward, k - 1), forward, j);
    }
  }

  lemma SoundPositive(search: Search, s: LineState, y: int, j: nat)
    requires Sound(search, s, y) && j < search.n
    ensures s.prox[j] >= -1
  {
    hide DistSq;
    if s.prox[j] != -1 {
      assert IsDistance(search, Pixel(j, y), s.prox[j]);
      var t :| search.Has(t) && DistSq(Pixel(j, y), t) == s.prox[j];
      DistSqPositive(Pixel(j, y), t);
    }
  }

  /** What is found is at most the proximity after either pass. */
  lemma FoundIsLower(search: Search, p: Pixel, down: bool)
    requires search.Valid() && InLines(search.img, p)
    requires search.After(p.y, down).prox[p.x] != -1
    ensures 0 <= search.Found(p) <= search.After(p.y, down).prox[p.x]
  {
    hide Search.Swept;
    var s := search.Before(p.y, false);
    PassKeeps(search, p.y, false);
    SoundPositive(search, search.After(p.y, false), p.y, p.x);
    if down {
      hide Keeps;
      assert s.prox == search.After(p.y, true).prox;
      SweepLowers(search, s, p.y, false, search.n, false, p.x);
      SweepKeeps(search, s, p.y, false, search.n, false);
      SweepLowers(search, search.Swept(s, p.y, false, search.n), p.y, true, search.n, false, p.x);
    }
  }

  /** Whatever is found is the distance of a target, within the maximal distance. */
  lemma FoundIsDistance(search: Search, p: Pixel)
    requires search.Valid() && InLines(search.img, p)
    ensures search.Found(p) >= -1 && (search.Found(p) != -1 ==> IsDistance(search, p, search.Found(p)))
  {
    hide IsDistance;
    PassKeeps(search, p.y, false);
    hide Search.After;
    SoundPositive(search, search.After(p.y, false), p.y, p.x);
  }

  /** If a target has a way to p, no more is found for p than the distance of something good. */
  lemma WayIsFound(search: Search, down: bool, t: Pixel, a: int, p: Pixel, good: Goal) returns (c: Pixel)
    requires search.Valid() && search.Has(t) && InLines(search.img, p) && Seen(down, p.y, t) && 0 <= a < search.n
    requires Way(search, down, t, a, p, good)
    ensures Offered(search, down, p.y, c) && good(p, c) && 0 <= search.Found(p) <= DistSq(p, c)
  {
    hide Way, DistSq, IsDistance;
    WayServes(search, down, t, a, p, good);
    FoundIsLower(search, p, down);
    PassKeeps(search, p.y, down);
    hide Search.After;
    c := search.After(p.y, down).Near(p.x);
  }

  // ---------------------------------------------------------------------
  // What is found lies between the distance to the nearest target and the Manhattan distance to every target in reach.
  // ---------------------------------------------------------------------

  /** t is a target that has to be taken into account at p. */
  ghost predicate InReach(search: Search, p: Pixel, t: Pixel) {
    search.Has(t) && (p == t || Manhattan(p, t) as real <= search.maxDist)
  }

  /** Whatever is as near as something in reach is in range. */
  lemma ReachIsInRange(search: Search, p: Pixel, t: Pixel, d: int)
    requires InReach(search, p, t) && 0 <= d <= Square(Manhattan(p, t)) && search.n > 0
    ensures search.InRange(d)
  {
    var m := Manhattan(p, t);
    var top := if search.maxDist > search.n as real then search.maxDist else search.n as real;
    RealSquarePositive(search.maxDist);
    RealSquareLess(1.0, top);
    if m > 0 {
      RealSquare(m);
      RealSquareLess(m as real, search.maxDist);
      RealSquareLess(search.maxDist, top);
    }
  }

  function ByManhattan(t: Pixel): Goal {
    (q, c) => DistSq(q, c) <= Square(Manhattan(q, t))
  }

  lemma ManhattanStays(search: Search, down: bool, t: Pixel, q: Pixel)
    requires search.n > 0 && InReach(search, q, t)
    ensures Stays(search, down, q, ByManhattan(t))
  {
    hide Square, DistSq, Search.InRange;
    forall c, c' | Offered(search, down, q.y, c) && Offered(search, down, q.y, c') && ByManhattan(t)(q, c)
      ensures search.InRange(DistSq(q, c))
    {
      DistSqPositive(q, c);
      ReachIsInRange(search, q, t, DistSq(q, c));
    }
  }

  lemma ManhattanPasses(search: Search, down: bool, t: Pixel, q': Pixel, q: Pixel)
    requires search.n > 0 && InReach(search, q, t) && Manhattan(q', q) == 1 && Manhattan(q, t) == Manhattan(q', t) + 1
    ensures Passes(search, down, q', q, ByManhattan(t)) && Drops(search, down, q', q, ByManhattan(t))
  {
    hide Square, DistSq, Search.InRange;
    forall c | ByManhattan(t)(q', c)
      ensures DistSq(q, c) <= Square(Manhattan(q, t)) && search.InRange(DistSq(q, c))
    {
      StepTriangle(q', q, c, Manhattan(q', t));
      DistSqPositive(q, c);
      ReachIsInRange(search, q, t, DistSq(q, c));
    }
  }

  /** Away from the column of t the Manhattan distance grows. */
  lemma ManhattanRuns(search: Search, down: bool, t: Pixel, y: int, e: int, x: int)
    requires search.n > 0 && InReach(search, Pixel(x, y), t) && (t.x <= e <= x || x <= e <= t.x)
    ensures Run(search, down, y, e, x, ByManhattan(t))
  {
    hide Square, DistSq, Passes;
    forall r | e < r <= x || x <= r < e
      ensures Passes(search, down, Toward(e, Pixel(r, y)), Pixel(r, y), ByManhattan(t))
    {
      ManhattanPasses(search, down, t, Toward(e, Pixel(r, y)), Pixel(r, y));
    }
  }

  lemma ManhattanFalls(search: Search, down: bool, t: Pixel, y: int)
    requires search.n > 0 && InReach(search, Pixel(t.x, y), t) && Seen(down, y, t)
    ensures Fall(search, down, t.x, t.y, y, ByManhattan(t))
  {
    hide Square, DistSq, Drops, Stays;
    forall r | if down then t.y < r <= y else y <= r < t.y
      ensures Drops(search, down, Pixel(t.x, Previous(down, r)), Pixel(t.x, r), ByManhattan(t))
      ensures Stays(search, down, Pixel(t.x, r), ByManhattan(t))
    {
      ManhattanStays(search, down, t, Pixel(t.x, r));
      ManhattanPasses(search, down, t, Pixel(t.x, Previous(down, r)), Pixel(t.x, r));
    }
  }

  lemma ManhattanWay(search: Search, down: bool, t: Pixel, p: Pixel)
    requires search.n > 0 && InReach(search, p, t) && Seen(down, p.y, t)
    ensures Way(search, down, t, t.x, p, ByManhattan(t))
  {
    hide Square, DistSq, Stays, Run, Fall;
    DistSqPositive(t, t);
    SquareZero(0);
    ManhattanStays(search, down, t, t);
    ManhattanStays(search, down, t, p);
    ManhattanRuns(search, down, t, t.y, t.x, t.x);
    ManhattanRuns(search, down, t, p.y, t.x, p.x);
    ManhattanFalls(search, down, t, p.y);
  }

  /** What is found is at most the Manhattan distance to any target in reach. */
  lemma FoundWithinManhattan(search: Search, p: Pixel, t: Pixel)
    requires search.Valid() && InLines(search.img, p) && InReach(search, p, t)
    ensures 0 <= search.Found(p) <= Square(Manhattan(p, t))
  {
    hide Square, DistSq, Way, Search.Found;
    var down := t.y <= p.y;
    ManhattanWay(search, down, t, p);
    var c := WayIsFound(search, down, t, t.x, p, ByManhattan(t));
  }

  /** t is a target within the maximal distance of p. */
  ghost predicate Within(search: Search, p: Pixel, t: Pixel) {
    search.Has(t) && DistSq(p, t) as real <= SquareReal(search.maxDist)
  }

  /**
   * What the result at p says: it is the distance to a target, within the maximal distance, and not greater than the
   * Manhattan distance to any target for which that is within the maximal distance; and it exists if there is one.
   */
  ghost predicate Bounded(search: Search, fixedBuf: bool, p: Pixel, o: Output) {
    match o
    case NoData => forall t :: !InReach(search, p, t)
    case FixedValue => fixedBuf && !search.Has(p) && exists t :: Within(search, p, t)
    case Distance(sq) =>
      && (sq == 0 <==> search.Has(p))
      && (fixedBuf ==> sq == 0)
      && (exists t :: Within(search, p, t) && DistSq(p, t) == sq)
      && (forall t :: InReach(search, p, t) ==> sq <= Square(Manhattan(p, t)))
  }

  lemma OutputIsBounded(search: Search, fixedBuf: bool, line: seq<Output>, y: nat, i: nat)
    requires search.Valid() && y < |search.img| && i < search.n && OutputLine(search, fixedBuf, line, y)
    ensures Bounded(search, fixedBuf, Pixel(i, y), line[i])
  {
    hide DistSq, Square, SquareReal, Search.Found;
    var p := Pixel(i, y);
    FoundIsDistance(search, p);
    if search.Found(p) != -1 {
      var t :| search.Has(t) && DistSq(p, t) == search.Found(p);
      DistSqPositive(p, t);
      assert Within(search, p, t);
    }
    forall t | InReach(search, p, t)
      ensures 0 <= search.Found(p) <= Square(Manhattan(p, t))
    {
      FoundWithinManhattan(search, p, t);
    }
    SquareZero(0);
    assert search.Has(p) ==> InReach(search, p, p);
  }

  /** By default every pixel has a result if there is a target at all, and no target is nearer in Manhattan distance. */
  lemma DefaultReachesAll(search: Search, line: seq<Output>, y: nat, i: nat, t: Pixel)
    requires search.Valid() && search.maxDist == MaxDist(None, search.n, |search.img|)
    requires y < |search.img| && i < search.n && OutputLine(search, false, line, y) && search.Has(t)
    ensures line[i].Distance? && 0 <= line[i].sq <= Square(Manhattan(Pixel(i, y), t))
  {
    hide Search.Found, Square;
    FoundWithinManhattan(search, Pixel(i, y), t);
  }
}

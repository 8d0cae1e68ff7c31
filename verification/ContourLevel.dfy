/** The contour lines of one level, in a list that is searched by the X of their tails. */
module ContourLevels {
  import opened ContourItems
  import opened Numbers

  // ---------------------------------------------------------------------
  // Segments of several lines.
  // ---------------------------------------------------------------------

  ghost function Total(lines: seq<seq<Segment>>, s: Segment): nat {
    if lines == [] then 0 else Total(lines[..|lines| - 1], s) + Count(lines[|lines| - 1], s)
  }

  lemma {:induction false} TotalConcat(a: seq<seq<Segment>>, b: seq<seq<Segment>>, s: Segment)
    ensures Total(a + b, s) == Total(a, s) + Total(b, s)
  {
    hide Count;
    if b == [] {
      assert a + b == a;
    } else {
      TotalConcat(a, b[..|b| - 1], s);
      assert (a + b)[..|a + b| - 1] == a + b[..|b| - 1];
    }
  }

  lemma TotalOne(line: seq<Segment>, s: Segment)
    ensures Total([line], s) == Count(line, s)
  {
    hide Count;
    assert [line][..0] == [];
  }

  lemma TotalInsert(lines: seq<seq<Segment>>, k: nat, line: seq<Segment>, s: Segment)
    requires k <= |lines|
    ensures Total(lines[..k] + [line] + lines[k..], s) == Total(lines, s) + Count(line, s)
  {
    hide Count, Total;
    TotalConcat(lines[..k] + [line], lines[k..], s);
    TotalConcat(lines[..k], [line], s);
    TotalConcat(lines[..k], lines[k..], s);
    TotalOne(line, s);
    assert lines == lines[..k] + lines[k..];
  }

  lemma TotalRemove(lines: seq<seq<Segment>>, k: nat, s: Segment)
    requires k < |lines|
    ensures Total(lines[..k] + lines[k + 1..], s) == Total(lines, s) - Count(lines[k], s)
  {
    hide Count, Total;
    var rest := lines[..k] + lines[k + 1..];
    TotalInsert(rest, k, lines[k], s);
    assert rest[..k] + [lines[k]] + rest[k..] == lines;
  }

  lemma TotalUpdate(lines: seq<seq<Segment>>, k: nat, line: seq<Segment>, s: Segment)
    requires k < |lines|
    ensures Total(lines[k := line], s) == Total(lines, s) - Count(lines[k], s) + Count(line, s)
  {
    hide Count, Total;
    TotalRemove(lines, k, s);
    var rest := lines[..k] + lines[k + 1..];
    TotalInsert(rest, k, line, s);
    assert rest[..k] + [line] + rest[k..] == lines[k := line];
  }

  /** The lines hold the same segments. */
  ghost predicate SameSegments(a: seq<seq<Segment>>, b: seq<seq<Segment>>) {
    forall s :: Total(a, s) == Total(b, s)
  }

  /** The lines of a hold those of b and one collection more. */
  ghost predicate MoreSegments(a: seq<seq<Segment>>, b: seq<seq<Segment>>, more: seq<Segment>) {
    forall s :: Total(a, s) == Total(b, s) + Count(more, s)
  }

  function Swap<T>(s: seq<T>, i: nat, j: nat): seq<T>
    requires i < |s| && j < |s|
  {
    s[i := s[j]][j := s[i]]
  }

  lemma SwapSame(lines: seq<seq<Segment>>, i: nat, j: nat)
    requires i < |lines| && j < |lines|
    ensures SameSegments(Swap(lines, i, j), lines)
  {
    hide Total, Count;
    forall s
      ensures Total(lines[i := lines[j]][j := lines[i]], s) == Total(lines, s)
    {
      TotalUpdate(lines, i, lines[j], s);
      TotalUpdate(lines[i := lines[j]], j, lines[i], s);
    }
  }

  lemma UpdateMore(lines: seq<seq<Segment>>, k: nat, line: seq<Segment>, more: seq<Segment>)
    requires k < |lines| && Joins(line, lines[k], more)
    ensures MoreSegments(lines[k := line], lines, more)
  {
    hide Total, Count;
    forall s
      ensures Total(lines[k := line], s) == Total(lines, s) + Count(more, s)
    {
      TotalUpdate(lines, k, line, s);
      assert Count(line, s) == Count(lines[k], s) + Count(more, s);
    }
  }

  lemma InsertMore(lines: seq<seq<Segment>>, k: nat, line: seq<Segment>)
    requires k <= |lines|
    ensures MoreSegments(lines[..k] + [line] + lines[k..], lines, line)
  {
    hide Total, Count;
    forall s
      ensures Total(lines[..k] + [line] + lines[k..], s) == Total(lines, s) + Count(line, s)
    {
      TotalInsert(lines, k, line, s);
    }
  }

  lemma RemoveMore(lines: seq<seq<Segment>>, k: nat)
    requires k < |lines|
    ensures MoreSegments(lines, lines[..k] + lines[k + 1..], lines[k])
  {
    hide Total, Count;
    forall s
      ensures Total(lines, s) == Total(lines[..k] + lines[k + 1..], s) + Count(lines[k], s)
    {
      TotalRemove(lines, k, s);
    }
  }

  ghost function SegmentsOf(items: seq<ContourItem>): (r: seq<seq<Segment>>)
    reads items
    ensures |r| == |items| && forall i :: 0 <= i < |items| ==> r[i] == items[i].segs
  {
    seq(|items|, i requires 0 <= i < |items| reads items => items[i].segs)
  }

  ghost predicate Distinct(items: seq<ContourItem>) {
    forall i, j :: 0 <= i < j < |items| ==> items[i] != items[j]
  }

  // ---------------------------------------------------------------------
  // The search for a tail.
  // ---------------------------------------------------------------------

  predicate NearX(tails: seq<Point>, i: nat, x: real)
    requires i < |tails|
  {
    AbsReal(tails[i].x - x) < JOIN_DIST
  }

  /** Where a binary search from start to end comes upon x, or -1. */
  function BinarySearch(tails: seq<Point>, x: real, start: int, end: int): (r: int)
    requires 0 <= start <= end + 1 <= |tails|
    ensures r == -1 || (start <= r <= end && tails[r].x == x)
    decreases end - start + 1
  {
    if end < start then -1 else
    var middle := (end + start) / 2;
    if tails[middle].x < x then BinarySearch(tails, x, middle + 1, end)
    else if tails[middle].x > x then BinarySearch(tails, x, start, middle - 1)
    else middle
  }

  /**
   * What it takes for a search for p to arrive at tail i: the binary search comes upon the very X, all tails up to
   * there but the first are near it in X, and so are all tails up to i.
   */
  ghost predicate Arrives(tails: seq<Point>, p: Point, i: nat)
    requires i < |tails|
  {
    var hit := BinarySearch(tails, p.x, 0, |tails| - 1);
    && hit != -1
    && (forall j :: 0 < j <= hit ==> NearX(tails, j, p.x))
    && (forall j :: 0 <= j <= i ==> NearX(tails, j, p.x))
  }

  /** The search would accept tail i. */
  ghost predicate Matches(tails: seq<Point>, p: Point, i: nat)
    requires i < |tails|
  {
    NearX(tails, i, p.x) && AbsReal(tails[i].y - p.y) < JOIN_DIST
  }

  ghost predicate Ordered(tails: seq<Point>) {
    forall i, j :: 0 <= i < j < |tails| ==> tails[i].x <= tails[j].x
  }

  ghost predicate Occurs(tails: seq<Point>, x: real) {
    exists k :: 0 <= k < |tails| && tails[k].x == x
  }

  /** In a list in order the binary search comes upon everything that is there. */
  lemma {:induction false} SearchHits(tails: seq<Point>, x: real, start: int, end: int, k: int)
    requires Ordered(tails) && 0 <= start <= k <= end < |tails| && tails[k].x == x
    ensures BinarySearch(tails, x, start, end) != -1
    decreases end - start
  {
    var middle := (end + start) / 2;
    if tails[middle].x < x {
      SearchHits(tails, x, middle + 1, end, k);
    } else if tails[middle].x > x {
      SearchHits(tails, x, start, middle - 1, k);
    }
  }

  /** Whatever is between a tail that is near in X and one with the very X is near, too. */
  lemma NearBetween(tails: seq<Point>, x: real, k: nat, i: nat, j: nat)
    requires Ordered(tails) && j < |tails| && k < |tails| && i < |tails| && NearX(tails, k, x) && NearX(tails, i, x)
    requires k <= j <= i
    ensures NearX(tails, j, x)
  {
    assert tails[k].x <= tails[j].x <= tails[i].x;
  }

  /** In a list in order the search arrives at a match exactly if the first tail is near in X and the very X occurs. */
  lemma ArrivesInOrder(tails: seq<Point>, p: Point, i: nat)
    requires Ordered(tails) && i < |tails| && Matches(tails, p, i)
    ensures Arrives(tails, p, i) <==> NearX(tails, 0, p.x) && Occurs(tails, p.x)
  {
    hide NearX, BinarySearch;
    var hit := BinarySearch(tails, p.x, 0, |tails| - 1);
    if NearX(tails, 0, p.x) && Occurs(tails, p.x) {
      var k :| 0 <= k < |tails| && tails[k].x == p.x;
      SearchHits(tails, p.x, 0, |tails| - 1, k);
      assert NearX(tails, hit, p.x) by {
        ItselfIsNear(tails, hit);
      }
      forall j | 0 <= j <= hit || 0 <= j <= i
        ensures NearX(tails, j, p.x)
      {
        NearBetween(tails, p.x, 0, if j <= i then i else hit, j);
      }
    }
  }

  lemma ItselfIsNear(tails: seq<Point>, k: nat)
    requires k < |tails|
    ensures NearX(tails, k, tails[k].x)
  {
  }

  /** So it finds one of several matches exactly in that case. */
  lemma FoundInOrder(tails: seq<Point>, p: Point)
    requires Ordered(tails)
    ensures (exists i :: 0 <= i < |tails| && Arrives(tails, p, i) && Matches(tails, p, i)) <==>
            (exists i :: 0 <= i < |tails| && Matches(tails, p, i)) && NearX(tails, 0, p.x) && Occurs(tails, p.x)
  {
    hide NearX, Matches, Arrives, Ordered;
    forall i | 0 <= i < |tails| && Matches(tails, p, i)
      ensures Arrives(tails, p, i) <==> NearX(tails, 0, p.x) && Occurs(tails, p.x)
    {
      ArrivesInOrder(tails, p, i);
    }
  }

  /** A tail can match and yet not be found, even in a list in order. */
  lemma SearchMisses()
    ensures var tails, p := [Point(0.0, 0.0), Point(5.0, 0.0)], Point(5.0, 0.0);
            Matches(tails, p, 1) && !Arrives(tails, p, 1) && tails[0].x < tails[1].x
  {
    var tails := [Point(0.0, 0.0), Point(5.0, 0.0)];
    assert !NearX(tails, 0, 5.0);
  }

  // ---------------------------------------------------------------------
  // The order of the list.
  // ---------------------------------------------------------------------

  /** The list without tail k is in order. */
  ghost predicate OrderedBut(tails: seq<Point>, k: int) {
    forall i, j :: 0 <= i < j < |tails| && i != k && j != k ==> tails[i].x <= tails[j].x
  }

  lemma SwapAt<T>(s: seq<T>, i: nat, j: nat)
    requires i < |s| && j < |s|
    ensures |Swap(s, i, j)| == |s| && multiset(Swap(s, i, j)) == multiset(s)
    ensures forall k :: 0 <= k < |s| ==> Swap(s, i, j)[k] == if k == i then s[j] else if k == j then s[i] else s[k]
  {
  }

  lemma DistinctSwap(items: seq<ContourItem>, i: nat, j: nat)
    requires Distinct(items) && i < |items| && j < |items|
    ensures Distinct(Swap(items, i, j))
  {
  }

  lemma SwapOrderedBut(tails: seq<Point>, k: nat, k': nat)
    requires k < |tails| && k' < |tails| && (k' == k + 1 || k == k' + 1) && OrderedBut(tails, k)
    ensures OrderedBut(Swap(tails, k, k'), k')
  {
  }

  /** A tail that fits between its neighbours is all that is missing. */
  lemma OrderedAround(tails: seq<Point>, k: nat)
    requires k < |tails| && OrderedBut(tails, k)
    requires (k > 0 ==> tails[k - 1].x <= tails[k].x) && (k < |tails| - 1 ==> tails[k].x <= tails[k + 1].x)
    ensures Ordered(tails)
  {
    forall i, j | 0 <= i < j < |tails|
      ensures tails[i].x <= tails[j].x
    {
      if i == k && j > k + 1 {
        assert tails[k + 1].x <= tails[j].x;
      } else if j == k && i < k - 1 {
        assert tails[i].x <= tails[k - 1].x;
      }
    }
  }

  function InsertedAt<T>(s: seq<T>, k: nat, x: T): (r: seq<T>)
    requires k <= |s|
    ensures |r| == |s| + 1
    ensures forall i :: 0 <= i < |r| ==> r[i] == if i < k then s[i] else if i == k then x else s[i - 1]
  {
    s[..k] + [x] + s[k..]
  }

  lemma InsertedMembers<T>(s: seq<T>, k: nat, x: T)
    requires k <= |s|
    ensures forall e :: e in InsertedAt(s, k, x) ==> e in s || e == x
  {
  }

  /** Where the binary search for a level ends among the tails from low to high. */
  function LevelSearch(tails: seq<Point>, level: real, low: int, high: int): (r: int)
    requires 0 <= low <= high + 1 <= |tails|
    ensures low <= r <= high + 1
    decreases high - low + 1
  {
    if high < low then high + 1 else
    var mid := (high + low) / 2;
    if tails[mid].x < level then LevelSearch(tails, level, mid + 1, high)
    else if tails[mid].x > level then LevelSearch(tails, level, low, mid - 1)
    else mid
  }

  lemma LevelSearchStep(tails: seq<Point>, level: real, low: int, high: int)
    requires 0 <= low <= high + 1 <= |tails|
    ensures high < low ==> LevelSearch(tails, level, low, high) == high + 1
    ensures low <= high ==>
              var mid := (high + low) / 2;
              LevelSearch(tails, level, low, high) ==
              if tails[mid].x < level then LevelSearch(tails, level, mid + 1, high)
              else if tails[mid].x > level then LevelSearch(tails, level, low, mid - 1)
              else mid
  {
  }

  lemma OrderedAt(tails: seq<Point>, k: nat, level: real)
    requires Ordered(tails) && k < |tails|
    ensures tails[k].x <= level ==> forall i :: 0 <= i <= k ==> tails[i].x <= level
    ensures tails[k].x >= level ==> forall i :: k <= i < |tails| ==> tails[i].x >= level
  {
  }

  /** In a list in order it ends between the tails below the level and those above it. */
  lemma {:induction false} LevelSearchSplits(tails: seq<Point>, level: real, low: int, high: int)
    requires 0 <= low <= high + 1 <= |tails| && Ordered(tails)
    requires forall i :: 0 <= i < low ==> tails[i].x <= level
    requires forall i :: high < i < |tails| ==> tails[i].x >= level
    ensures var r := LevelSearch(tails, level, low, high);
            && (forall i :: 0 <= i < r ==> tails[i].x <= level)
            && (forall i :: r <= i < |tails| ==> tails[i].x >= level)
    decreases high - low + 1
  {
    LevelSearchStep(tails, level, low, high);
    hide LevelSearch, Ordered;
    if low <= high {
      var mid := (high + low) / 2;
      OrderedAt(tails, mid, level);
      if tails[mid].x < level {
        LevelSearchSplits(tails, level, mid + 1, high);
      } else if tails[mid].x > level {
        LevelSearchSplits(tails, level, low, mid - 1);
      }
    }
  }

  /**
   * What the search by level does to a list in order: it stays in order exactly if the new tail is between those on
   * both sides of the level.
   */
  lemma InsertOrder(tails: seq<Point>, level: real, tail: Point)
    requires Ordered(tails)
    ensures var r := LevelSearch(tails, level, 0, |tails| - 1);
            && (forall i :: 0 <= i < r ==> tails[i].x <= level)
            && (forall i :: r <= i < |tails| ==> tails[i].x >= level)
            && (Ordered(InsertedAt(tails, r, tail)) <==>
                (r > 0 ==> tails[r - 1].x <= tail.x) && (r < |tails| ==> tail.x <= tails[r].x))
  {
    LevelSearchSplits(tails, level, 0, |tails| - 1);
    var r := LevelSearch(tails, level, 0, |tails| - 1);
    var after := InsertedAt(tails, r, tail);
    if (r > 0 ==> tails[r - 1].x <= tail.x) && (r < |tails| ==> tail.x <= tails[r].x) {
      OrderedAround(after, r);
    } else if r > 0 && tails[r - 1].x > tail.x {
      assert after[r - 1].x > after[r].x;
    } else {
      assert after[r].x > after[r + 1].x;
    }
  }

  /** A line can be put in the wrong place. */
  lemma InsertMisplaces()
    ensures var tails, tail := [Point(5.0, 0.0)], Point(0.5, 0.0);
            Ordered(tails) && !Ordered(InsertedAt(tails, LevelSearch(tails, 100.0, 0, 0), tail))
  {
    InsertOrder([Point(5.0, 0.0)], 100.0, Point(0.5, 0.0));
  }

  /** Line k takes in a line that is taken off the list. */
  datatype Merging = Merging(k: nat, target: ContourItem, st: Stage, limit: real, onlyUnused: bool)

  /** A segment is attached at the end of a stage, and with it the next one begins. */
  datatype AttachedIn = AttachedIn(start: Point, end: Point, leftHigh: bool, before: Stage, after: Stage)

  class ContourLevel {
    const elevation: real
    var entries: seq<ContourItem>

    constructor (elevation: real)
      ensures this.elevation == elevation && entries == [] && Valid()
    {
      this.elevation, entries := elevation, [];
    }

    ghost predicate Valid()
      reads this, entries
    {
      && Distinct(entries)
      && forall i :: 0 <= i < |entries| ==> entries[i].elevation == elevation && entries[i].Valid()
    }

    ghost function Tails(): (r: seq<Point>)
      requires Valid()
      reads this, entries
      ensures |r| == |entries| && forall i :: 0 <= i < |r| ==> entries[i].points != [] && r[i] == entries[i].Tail()
    {
      seq(|entries|, i requires 0 <= i < |entries| && Valid() reads this, entries => entries[i].Tail())
    }

    ghost function Segments(): seq<seq<Segment>>
      reads this, entries
    {
      SegmentsOf(entries)
    }

    /** All lines can be taken further. */
    ghost predicate Staged(st: Stage)
      requires Valid()
      reads this, entries
    {
      forall i :: 0 <= i < |entries| ==> entries[i].Staged(st)
    }

    /** All lines that are to be taken off the list end above y = limit. */
    ghost predicate Within(limit: real, onlyUnused: bool)
      reads this, entries
    {
      forall i :: 0 <= i < |entries| ==>
        (onlyUnused && entries[i].recentlyAccessed) || EndsBelow(entries[i].points, limit)
    }

    /**
     * Finds a line whose tail is near a point. What is found matches; something is found exactly if the search
     * arrives at a match.
     */
    method FindContour(p: Point) returns (r: int)
      requires Valid()
      ensures r == -1 || 0 <= r < |entries|
      ensures r != -1 ==> Near(entries[r].Tail(), p) && Arrives(Tails(), p, r)
      ensures r == -1 <==> forall i :: 0 <= i < |entries| && Arrives(Tails(), p, i) ==> !Matches(Tails(), p, i)
      ensures Ordered(Tails()) ==>
                (r != -1 <==> (exists i :: 0 <= i < |entries| && Matches(Tails(), p, i))
                              && NearX(Tails(), 0, p.x) && Occurs(Tails(), p.x))
    {
      r := Search(p);
      if Ordered(Tails()) {
        FoundInOrder(Tails(), p);
      }
    }

    method Search(p: Point) returns (r: int)
      requires Valid()
      ensures r == -1 || 0 <= r < |entries|
      ensures r != -1 ==> Near(entries[r].Tail(), p) && Arrives(Tails(), p, r)
      ensures r == -1 <==> forall i :: 0 <= i < |entries| && Arrives(Tails(), p, i) ==> !Matches(Tails(), p, i)
    {
      hide BinarySearch, Arrives, NearX;
      ghost var tails := Tails();
      var low, high := 0, |entries| - 1;
      while high >= low
        invariant 0 <= low <= high + 1 <= |entries|
        invariant BinarySearch(tails, p.x, 0, |entries| - 1) == BinarySearch(tails, p.x, low, high)
        decreases high - low + 1
      {
        var mid := (high + low) / 2;
        var midX := entries[mid].tailX;
        SearchStep(tails, p.x, low, high);
        if midX < p.x {
          low := mid + 1;
        } else if midX > p.x {
          high := mid - 1;
        } else {
          r := ScanTails(mid, p);
          if r != -1 {
            MatchIsNear(tails, p, r);
          }
          return;
        }
      }
      SearchStep(tails, p.x, low, high);
      NoHit(tails, p);
      return -1;
    }

    /** Walks back to the first tail that is near in X, and from there on to one that is near in Y, too. */
    method ScanTails(hit: nat, p: Point) returns (r: int)
      requires Valid() && hit < |entries| && BinarySearch(Tails(), p.x, 0, |entries| - 1) == hit
      ensures r == -1 || 0 <= r < |entries|
      ensures r != -1 ==> Matches(Tails(), p, r) && Arrives(Tails(), p, r)
      ensures r == -1 ==> forall i :: 0 <= i < |entries| && Arrives(Tails(), p, i) ==> !Matches(Tails(), p, i)
    {
      hide BinarySearch;
      ghost var tails := Tails();
      var mid := hit;
      while mid > 0 && AbsReal(entries[mid].tailX - p.x) < JOIN_DIST
        invariant 0 <= mid <= hit
        invariant forall j :: mid < j <= hit ==> NearX(tails, j, p.x)
      {
        mid := mid - 1;
      }
      ghost var first := mid;
      assert first > 0 ==> !NearX(tails, first, p.x);
      while mid < |entries| && AbsReal(entries[mid].tailX - p.x) < JOIN_DIST
        invariant first <= mid <= |entries|
        invariant forall j :: first <= j < mid ==> NearX(tails, j, p.x) && !Matches(tails, p, j)
      {
        assert NearX(tails, mid, p.x);
        if AbsReal(entries[mid].Tail().y - p.y) < JOIN_DIST {
          return mid;
        }
        mid := mid + 1;
      }
      ScanEnds(tails, p, hit, first, mid);
      return -1;
    }

    /** Moves a line up or down in the list until its tail is in order with its neighbours'. */
    method AdjustContour(index: nat)
      requires Valid() && index < |entries|
      modifies this
      ensures Valid() && multiset(entries) == multiset(old(entries))
      ensures forall e :: e in entries <==> e in old(entries)
      ensures SameSegments(Segments(), old(Segments()))
      ensures old(OrderedBut(Tails(), index)) ==> Ordered(Tails())
    {
      hide SameSegments, OrderedBut, Ordered, Valid, Adjusting;
      ghost var before, members, ordered := Segments(), multiset(entries), OrderedBut(Tails(), index);
      SameSelf(before);
      BeginAdjusting(before, ordered, index);
      var changed := MoveUp(index, before, members, ordered);
      changed := MoveDown(changed, before, members, ordered);
      EndAdjusting(before, members, ordered, changed);
      SameMembers(entries, old(entries));
      if ordered {
        OrderedAround(Tails(), changed);
      }
    }

    /** Line k is being moved: everything else is in order if it was, and the lines and their segments are the same. */
    ghost predicate Adjusting(before: seq<seq<Segment>>, members: multiset<ContourItem>, ordered: bool, k: int)
      reads this, entries
    {
      && Valid() && 0 <= k < |entries| && multiset(entries) == members && SameSegments(Segments(), before)
      && (ordered ==> OrderedBut(Tails(), k))
    }

    lemma BeginAdjusting(before: seq<seq<Segment>>, ordered: bool, k: int)
      requires Valid() && 0 <= k < |entries| && SameSegments(Segments(), before) && (ordered ==> OrderedBut(Tails(), k))
      ensures Adjusting(before, multiset(entries), ordered, k)
    {
    }

    lemma EndAdjusting(before: seq<seq<Segment>>, members: multiset<ContourItem>, ordered: bool, k: int)
      requires Adjusting(before, members, ordered, k)
      ensures Valid() && 0 <= k < |entries| && multiset(entries) == members && SameSegments(Segments(), before)
      ensures (ordered ==> OrderedBut(Tails(), k)) && forall i :: 0 <= i < |entries| ==>
              entries[i].tailX == Tails()[i].x
    {
      hide SameSegments, OrderedBut;
    }

    /** As long as the line is before the one above in order, it is moved up. */
    method MoveUp(index: nat, ghost before: seq<seq<Segment>>, ghost members: multiset<ContourItem>,
                  ghost ordered: bool)
      returns (changed: nat)
      requires Adjusting(before, members, ordered, index)
      modifies this
      ensures Adjusting(before, members, ordered, changed)
      ensures changed > 0 ==> entries[changed - 1].tailX <= entries[changed].tailX
    {
      hide Adjusting;
      EndAdjusting(before, members, ordered, index);
      changed := index;
      while changed > 0 && entries[changed].tailX < entries[changed - 1].tailX
        invariant Adjusting(before, members, ordered, changed) && changed < |entries|
      {
        Exchange(changed, changed - 1, before, members, ordered);
        changed := changed - 1;
      }
    }

    /** As long as the line is after the one below in order, it is moved down. */
    method MoveDown(index: nat, ghost before: seq<seq<Segment>>, ghost members: multiset<ContourItem>,
                    ghost ordered: bool)
      returns (changed: nat)
      requires Adjusting(before, members, ordered, index)
      requires index > 0 ==> entries[index - 1].tailX <= entries[index].tailX
      modifies this
      ensures Adjusting(before, members, ordered, changed)
      ensures changed > 0 ==> entries[changed - 1].tailX <= entries[changed].tailX
      ensures changed < |entries| - 1 ==> entries[changed].tailX <= entries[changed + 1].tailX
    {
      hide Adjusting;
      EndAdjusting(before, members, ordered, index);
      changed := index;
      while changed < |entries| - 1 && entries[changed].tailX > entries[changed + 1].tailX
        invariant Adjusting(before, members, ordered, changed) && changed < |entries|
        invariant changed > 0 ==> entries[changed - 1].tailX <= entries[changed].tailX
      {
        Exchange(changed, changed + 1, before, members, ordered);
        changed := changed + 1;
      }
    }

    /** Exchanges the line with a neighbour. */
    method Exchange(k: nat, k': nat, ghost before: seq<seq<Segment>>, ghost members: multiset<ContourItem>,
                    ghost ordered: bool)
      requires Adjusting(before, members, ordered, k) && k' < |entries| && (k' == k + 1 || k == k' + 1)
      modifies this
      ensures Adjusting(before, members, ordered, k')
      ensures |entries| == |old(entries)| && entries[k] == old(entries[k']) && entries[k'] == old(entries[k])
    {
      hide SameSegments, OrderedBut, Valid;
      ghost var now := Segments();
      if ordered {
        SwapOrderedBut(Tails(), k, k');
      }
      SwapEntries(k, k');
      SameTrans(Segments(), now, before);
    }

    lemma TailsAre()
      requires Valid()
      ensures forall i :: 0 <= i < |entries| ==> entries[i].tailX == Tails()[i].x
    {
    }

    method SwapEntries(i: nat, j: nat)
      requires Valid() && i < |entries| && j < |entries| && i != j
      modifies this
      ensures entries == Swap(old(entries), i, j)
      ensures Valid() && multiset(entries) == multiset(old(entries))
      ensures SameSegments(Segments(), old(Segments())) && Tails() == Swap(old(Tails()), i, j)
    {
      hide SameSegments, ContourItem.Valid, Distinct, Swap;
      ghost var before, tails := Segments(), Tails();
      SwapSame(before, i, j);
      SwapAt(before, i, j);
      SwapAt(tails, i, j);
      SwapAt(entries, i, j);
      DistinctSwap(entries, i, j);
      entries := Swap(entries, i, j);
      assert Segments() == Swap(before, i, j);
    }

    method RemoveContour(index: nat)
      requires Valid() && index < |entries|
      modifies this
      ensures Valid() && entries == old(entries)[..index] + old(entries)[index + 1..]
      ensures old(entries)[index] !in entries
      ensures MoreSegments(old(Segments()), Segments(), old(entries)[index].segs)
    {
      ghost var before := Segments();
      RemoveMore(before, index);
      entries := entries[..index] + entries[index + 1..];
      assert Segments() == before[..index] + before[index + 1..];
    }

    /** Inserts a line where a binary search, which compares tails with the level itself, ends. */
    method InsertContour(item: ContourItem) returns (r: nat)
      requires Valid() && item.Valid() && item.elevation == elevation && item !in entries
      modifies this
      ensures Valid() && r == LevelSearch(old(Tails()), elevation, 0, |old(entries)| - 1)
      ensures entries == InsertedAt(old(entries), r, item) && Tails() == InsertedAt(old(Tails()), r, item.Tail())
      ensures MoreSegments(Segments(), old(Segments()), item.segs)
    {
      hide Valid, MoreSegments, Ordered, LevelSearch;
      TailsAre();
      ghost var tails := Tails();
      var low, high := 0, |entries| - 1;
      while high >= low
        invariant 0 <= low <= high + 1 <= |entries| == |tails| && Valid() && item.Valid() && entries == old(entries)
        invariant tails == Tails() && forall i :: 0 <= i < |entries| ==> entries[i].tailX == tails[i].x
        invariant LevelSearch(tails, elevation, 0, |entries| - 1) == LevelSearch(tails, elevation, low, high)
        decreases high - low + 1
      {
        LevelSearchStep(tails, elevation, low, high);
        var mid := (high + low) / 2;
        var midX := entries[mid].tailX;
        if midX < item.elevation {
          low := mid + 1;
        } else if midX > item.elevation {
          high := mid - 1;
        } else {
          high := mid - 1;
          break;
        }
      }
      if high < low {
        LevelSearchStep(tails, elevation, low, high);
      }
      r := high + 1;
      InsertEntry(item, r);
    }

    method InsertEntry(item: ContourItem, r: nat)
      requires Valid() && item.Valid() && item.elevation == elevation && item !in entries && r <= |entries|
      modifies this
      ensures Valid() && entries == InsertedAt(old(entries), r, item)
      ensures Tails() == InsertedAt(old(Tails()), r, item.Tail())
      ensures MoreSegments(Segments(), old(Segments()), item.segs)
    {
      hide MoreSegments, Traces;
      ghost var before := Segments();
      InsertMore(before, r, item.segs);
      entries := entries[..r] + [item] + entries[r..];
      assert entries == InsertedAt(old(entries), r, item);
      assert Segments() == InsertedAt(before, r, item.segs);
    }

    /** Adds a segment to the line found for it, which it always joins. */
    method Extend(index: nat, start: Point, end: Point, leftHigh: bool)
      requires Valid() && index < |entries|
      requires Near(entries[index].Tail(), start) || Near(entries[index].Tail(), end)
      modifies entries
      ensures Valid() && entries == old(entries)
      ensures MoreSegments(Segments(), old(Segments()), [Segment(elevation, start, end)])
      ensures forall e :: e in entries ==> e.KeptOrGrown({start, end})
    {
      hide MoreSegments, Joins, Near, Traces;
      ghost var before := Segments();
      var item := entries[index];
      TraceEnds(elevation, item.points, item.segs);
      var added := item.AddSegment(start, end, leftHigh);
      UpdateMore(before, index, item.segs, [Segment(elevation, start, end)]);
      assert Segments() == before[index := item.segs];
    }

    /** Adds a segment to the line found for it and moves the line to its place. */
    method Prolong(index: nat, start: Point, end: Point, leftHigh: bool)
      requires Valid() && index < |entries|
      requires Near(entries[index].Tail(), start) || Near(entries[index].Tail(), end)
      modifies this, entries
      ensures Valid() && forall e :: e in entries ==> e in old(entries)
      ensures MoreSegments(Segments(), old(Segments()), [Segment(elevation, start, end)])
      ensures Attached(start, end, leftHigh)
    {
      hide MoreSegments, SameSegments, Near, Ordered, OrderedBut, Traces, ContourItem.GrownFrom;
      ghost var before := Segments();
      Extend(index, start, end, leftHigh);
      ghost var after := Segments();
      AdjustContour(index);
      SameMore(Segments(), after, before, [Segment(elevation, start, end)]);
    }

    /** A line of the list has been prolonged at most; one that is new is the segment alone. */
    twostate predicate Attached(start: Point, end: Point, leftHigh: bool)
      requires old(Valid()) && Valid()
      reads this, entries
    {
      forall e :: e in entries ==>
        if e in old(entries) then e.KeptOrGrown({start, end})
        else e.points == [start, end] && e.recentlyAccessed
             && e.Start() == Call(Segment(elevation, start, end), leftHigh)
    }

    /** At fresh points lines can be prolonged and started. */
    twostate lemma AttachedStage(a: AttachedIn)
      requires old(Valid()) && Valid() && Attached(a.start, a.end, a.leftHigh)
      requires old(Staged(a.after)) && a.after.unused <= a.after.used
      requires Fresh(a.after, a.start) && Fresh(a.after, a.end)
      requires Call(Segment(elevation, a.start, a.end), a.leftHigh) in a.after.calls
      ensures Staged(a.after)
    {
      var start, end, leftHigh, st := a.start, a.end, a.leftHigh, a.after;
      hide InStage, Fresh, Traces;
      forall i | 0 <= i < |entries|
        ensures entries[i].Staged(st)
      {
        var item := entries[i];
        assert item in entries;
        if item in old(entries) {
          assert old(item.Staged(st));
          if !unchanged(item) {
            GrownInStage(st, elevation, old(item.points), old(item.recentlyAccessed), old(item.Start()), item.points,
                         start, end);
          }
        } else {
          NewInStage(st, elevation, start, end, item.Start());
        }
      }
    }

    /** Likewise, with the segment being among those supplied from now on. */
    twostate lemma AttachedOnward(a: AttachedIn)
      requires old(Valid()) && Valid() && Attached(a.start, a.end, a.leftHigh) && old(Staged(a.before))
      requires a.after == a.before.(calls := a.after.calls) && a.before.calls <= a.after.calls
      requires a.after.unused <= a.after.used && Fresh(a.after, a.start) && Fresh(a.after, a.end)
      requires Call(Segment(elevation, a.start, a.end), a.leftHigh) in a.after.calls
      ensures Staged(a.after)
    {
      hide AwayFrom, EndsBelow, Fresh, Attached, Traces;
      forall i | 0 <= i < |old(entries)|
        ensures old(entries[i].Staged(a.after))
      {
        assert old(entries[i].Staged(a.before));
      }
      AttachedStage(a);
    }

    method NewLine(start: Point, end: Point, leftHigh: bool) returns (item: ContourItem)
      ensures fresh(item) && item.Valid() && item.elevation == elevation && item.recentlyAccessed
      ensures item.points == [start, end] && item.Start() == Call(Segment(elevation, start, end), leftHigh)
      ensures Joins(item.segs, [], [Segment(elevation, start, end)])
    {
      hide Near, Joins, Traces;
      item := new ContourItem(elevation);
      var added := item.AddSegment(start, end, leftHigh);
    }

    /** Starts a line with a segment. */
    method Start(start: Point, end: Point, leftHigh: bool)
      requires Valid()
      modifies this
      ensures Valid() && forall e :: e in entries ==> e in old(entries) || fresh(e)
      ensures MoreSegments(Segments(), old(Segments()), [Segment(elevation, start, end)])
      ensures Attached(start, end, leftHigh)
    {
      hide MoreSegments, Joins, Near, Traces, LevelSearch;
      ghost var before := Segments();
      var item := NewLine(start, end, leftHigh);
      hide ContourItem.Valid;
      var r := InsertContour(item);
      InsertedMembers(old(entries), r, item);
      JoinsNothing(item.segs, [Segment(elevation, start, end)]);
      SameAsMore(Segments(), before, item.segs, [Segment(elevation, start, end)]);
    }

    /** Adds a segment to a line, or as a new line. */
    method Attach(start: Point, end: Point, leftHigh: bool)
      requires Valid()
      modifies this, entries
      ensures Valid() && forall e :: e in entries ==> e in old(entries) || fresh(e)
      ensures MoreSegments(Segments(), old(Segments()), [Segment(elevation, start, end)])
      ensures Attached(start, end, leftHigh)
    {
      hide MoreSegments, Arrives, Near, Matches, Ordered, Occurs, ContourItem.GrownFrom, Traces;
      var index := FindContour(if start.y < end.y then start else end);
      if index != -1 {
        Prolong(index, start, end, leftHigh);
      } else {
        Start(start, end, leftHigh);
      }
    }

    method ClearAccessed()
      requires Valid()
      modifies entries
      ensures Valid() && Segments() == old(Segments())
      ensures forall i :: 0 <= i < |entries| ==> !entries[i].recentlyAccessed && entries[i].SameLine()
    {
      hide Valid, Segments;
      for entry := 0 to |entries|
        invariant forall i :: 0 <= i < |entries| ==> entries[i].SameLine()
        invariant forall i :: 0 <= i < entry ==> !entries[i].recentlyAccessed
      {
        entries[entry].recentlyAccessed := false;
      }
      SameLinesValid();
    }

    /** Flags make no difference. */
    twostate lemma SameLinesValid()
      requires old(Valid()) && entries == old(entries)
      requires forall i :: 0 <= i < |entries| ==> entries[i].SameLine()
      ensures Valid() && Segments() == old(Segments())
    {
      hide Traces;
      forall i | 0 <= i < |entries|
        ensures entries[i].Valid()
      {
        assert old(entries[i].Valid());
      }
    }

    /** Merges a line into line k of the list if they have an end in common. */
    method MergeAt(k: nat, target: ContourItem) returns (merged: bool)
      requires Valid() && target.Valid() && target !in entries && k < |entries|
      modifies entries[k]
      ensures Valid() && target.Valid()
      ensures merged <==> old(entries[k].Joinable(target))
      ensures merged ==> MoreSegments(Segments(), old(Segments()), target.segs) && entries[k].recentlyAccessed
      ensures merged ==> TookIn(k, target)
      ensures !merged ==> unchanged(entries[k])
    {
      hide MoreSegments, Joins, Near, Traces, ContourItem.Joinable;
      ghost var before := Segments();
      merged := entries[k].Merge(target);
      if merged {
        UpdateMore(before, k, entries[k].segs, target.segs);
        assert Segments() == before[k := entries[k].segs];
      }
    }

    /** Merges a line into the first one of the list that has an end in common with it. */
    method MergeInto(target: ContourItem) returns (merged: bool, ghost k: nat)
      requires Valid() && target.Valid() && target !in entries
      modifies entries
      ensures Valid() && target.Valid()
      ensures forall e :: e in entries && old(e.recentlyAccessed) ==> e.recentlyAccessed
      ensures merged ==> MoreSegments(Segments(), old(Segments()), target.segs)
      ensures merged <==> exists i :: 0 <= i < |entries| && old(entries[i].Joinable(target))
      ensures !merged ==> Segments() == old(Segments()) && forall i :: 0 <= i < |entries| ==> unchanged(entries[i])
      ensures merged ==> k < |entries| && TookIn(k, target)
    {
      hide MoreSegments, Traces, ContourItem.Joinable, ContourItem.Valid, ContourItem.GrownFrom;
      k := 0;
      for otherIndex := 0 to |entries|
        invariant Valid() && target.Valid() && Segments() == old(Segments())
        invariant forall i :: 0 <= i < |entries| ==> unchanged(entries[i])
        invariant forall i :: 0 <= i < otherIndex ==> !old(entries[i].Joinable(target))
      {
        merged := MergeAt(otherIndex, target);
        if merged {
          return true, otherIndex;
        }
      }
      return false, 0;
    }

    lemma NoneIsNear(target: ContourItem)
      requires Valid() && target.Valid()
      requires forall i :: 0 <= i < |entries| ==> !entries[i].Joinable(target)
      ensures target.elevation == elevation ==>
                forall i :: 0 <= i < |entries| ==> !EndsNear(entries[i].points, target.points)
    {
      hide ContourItem.Joinable, EndsNear, Traces;
      forall i | 0 <= i < |entries|
        ensures target.elevation == elevation ==> !EndsNear(entries[i].points, target.points)
      {
        entries[i].JoinableIsNear(target);
      }
    }

    /** Line k has taken in another one. */
    twostate predicate TookIn(k: nat, target: ContourItem)
      requires old(Valid()) && Valid() && entries == old(entries) && k < |entries|
      reads this, entries, target
    {
      && entries[k].GrownFrom(old(Ends(entries[k].points)), old(entries[k].Start()), Ends(target.points))
      && target.elevation == elevation
      && forall i :: 0 <= i < |entries| && i != k ==> unchanged(entries[i])
    }

    twostate lemma MergedStage(m: Merging)
      requires old(Valid()) && Valid() && entries == old(entries) && m.k < |entries| && m.target.Valid()
      requires TookIn(m.k, m.target) && old(Staged(m.st)) && m.target.Staged(m.st) && m.st.unused <= m.st.used
      requires old(Within(m.limit, m.onlyUnused)) && EndsBelow(m.target.points, m.limit)
      ensures Staged(m.st) && Within(m.limit, m.onlyUnused)
    {
      var k, target, st := m.k, m.target, m.st;
      hide InStage, Traces, Ends;
      var item := entries[k];
      assert old(item.Staged(st));
      MergedInStage(st, elevation, old(item.points), old(item.recentlyAccessed), item.Start(), target.points,
                    target.recentlyAccessed, target.Start(), item.points);
      assert forall i :: 0 <= i < |entries| && i != k ==> old(entries[i].Staged(st));
    }

    /**
     * Takes lines off the list, all of them or those that were not accessed recently. Each is merged into another one
     * or written out.
     */
    method EjectContours(onlyUnused: bool, writer: ContourWriter, ghost st: Stage, ghost limit: real)
      requires Valid() && writer.Valid()
      modifies this, entries, writer
      ensures Valid() && writer.Valid() && forall e :: e in entries ==> e in old(entries)
      ensures Conserves(Segments(), writer.segs, old(Segments()), old(writer.segs))
      ensures Ejected(onlyUnused)
      ensures old(Ejecting(writer.lines, st, limit, onlyUnused)) ==> Ejecting(writer.lines, st, limit, onlyUnused)
    {
      hide MoreSegments, Joins, Near, Traces, Conserves, Valid, ContourWriter.Valid, Ejecting;
      ghost var ready := Ejecting(writer.lines, st, limit, onlyUnused);
      var entry := 0;
      ConservesSelf(Segments(), writer.segs);
      while entry < |entries|
        invariant 0 <= entry <= |entries| && Valid() && writer.Valid()
        invariant forall e :: e in entries ==> e in old(entries)
        invariant Conserves(Segments(), writer.segs, old(Segments()), old(writer.segs))
        invariant forall k :: 0 <= k < entry ==> entries[k].recentlyAccessed
        invariant !onlyUnused ==> entry == 0
        invariant ready ==> Ejecting(writer.lines, st, limit, onlyUnused)
        decreases |entries| - entry
      {
        if onlyUnused && entries[entry].recentlyAccessed {
          entry := entry + 1;
        } else {
          ghost var lines, written := Segments(), writer.segs;
          assert forall k :: 0 <= k < |entries| ==> entries[k] in entries;
          ghost var before := entries;
          EjectContour(entry, writer, st, limit, onlyUnused);
          ConservesTrans(Segments(), writer.segs, lines, written, old(Segments()), old(writer.segs));
          assert forall k :: 0 <= k < entry ==> entries[k] == before[k];
        }
      }
    }

    /** Only lines that were accessed recently are left, or none. */
    ghost predicate Ejected(onlyUnused: bool)
      reads this, entries
    {
      if onlyUnused then forall e :: e in entries ==> e.recentlyAccessed else entries == []
    }

    /**
     * While lines are taken off the list: they are away from everything written so far, and what has been written since
     * st ends above y = limit, and has its high side on the right along a segment that was supplied.
     */
    ghost predicate Ejecting(lines: seq<Polyline>, st: Stage, limit: real, onlyUnused: bool)
      requires Valid()
      reads this, entries
    {
      && Staged(st.(written := lines)) && st.unused <= st.used && Within(limit, onlyUnused)
      && Apart(lines) && st.written <= lines
      && forall i :: |st.written| <= i < |lines| ==>
           lines[i].level == elevation && WrittenFrom(lines[i], st.calls, limit)
    }

    /** Writing a line that none of those left could have taken in. */
    lemma WrittenStage(lines: seq<Polyline>, line: Polyline, st: Stage, limit: real, onlyUnused: bool,
                       points: seq<Point>, accessed: bool, start: Call)
      requires Valid() && Ejecting(lines, st, limit, onlyUnused)
      requires InStage(st.(written := lines), elevation, points, accessed, start) && EndsBelow(points, limit)
      requires line.level == elevation && Ends(line.points) == Ends(points) && HighOnRight(line.points, start)
      requires forall i :: 0 <= i < |entries| ==> !EndsNear(entries[i].points, points)
      ensures Ejecting(lines + [line], st, limit, onlyUnused)
    {
      hide HighOnRight, Ends, Near, Traces;
      var lines' := lines + [line];
      forall i | 0 <= i < |entries|
        ensures entries[i].Staged(st.(written := lines'))
      {
        assert entries[i].Staged(st.(written := lines));
        WrittenAway(lines, line, elevation, entries[i].points, points);
      }
      WrittenApart(lines, line, points);
      assert WrittenFrom(line, st.calls, limit);
    }

    /** Writes a line that is not in the list. */
    method WriteOut(target: ContourItem, writer: ContourWriter)
      requires Valid() && writer.Valid() && target.Valid() && target !in entries
      modifies target, writer
      ensures Valid() && Segments() == old(Segments()) && writer.Valid()
      ensures Joins(target.segs, old(target.segs), []) && writer.segs == old(writer.segs) + [target.segs]
      ensures writer.lines == old(writer.lines) + [Polyline(target.elevation, target.points)]
      ensures Ends(target.points) == old(Ends(target.points)) && HighOnRight(target.points, old(target.Start()))
    {
      hide Joins, Near, Traces, Ends, HighOnRight;
      target.PrepareEjection();
      writer.Write(target);
    }

    /** Takes one line off the list. */
    method EjectContour(entry: nat, writer: ContourWriter, ghost st: Stage, ghost limit: real, ghost onlyUnused: bool)
      requires Valid() && writer.Valid() && entry < |entries|
      modifies this, entries, writer
      ensures Valid() && writer.Valid()
      ensures entries == old(entries)[..entry] + old(entries)[entry + 1..]
      ensures forall e :: e in entries ==> e in old(entries) && (old(e.recentlyAccessed) ==> e.recentlyAccessed)
      ensures Conserves(Segments(), writer.segs, old(Segments()), old(writer.segs))
      ensures writer.lines == old(writer.lines) <==> exists e :: e in entries && old(e.Joinable(entries[entry]))
      ensures old(Ejecting(writer.lines, st, limit, onlyUnused) && !(onlyUnused && entries[entry].recentlyAccessed))
          ==> Ejecting(writer.lines, st, limit, onlyUnused)
    {
      hide MoreSegments, Traces, Conserves, Ends, HighOnRight, ContourItem.Joinable, InStage, Ejecting;
      var target := entries[entry];
      TakeOff(entry, writer.lines, st, limit, onlyUnused);
      ghost var rest := Segments();
      MergeOrWrite(target, writer, st, limit, onlyUnused);
      DisposedConserves(Segments(), writer.segs, rest, old(writer.segs), old(Segments()), old(target.segs));
    }

    /** Takes a line off the list. */
    method TakeOff(entry: nat, ghost lines: seq<Polyline>, ghost st: Stage, ghost limit: real, ghost onlyUnused: bool)
      requires Valid() && entry < |entries|
      modifies this
      ensures Valid() && entries == old(entries)[..entry] + old(entries)[entry + 1..]
      ensures old(entries)[entry] !in entries && MoreSegments(old(Segments()), Segments(), old(entries)[entry].segs)
      ensures old(Ejecting(lines, st, limit, onlyUnused)) && !(onlyUnused && old(entries[entry].recentlyAccessed)) ==>
                && Ejecting(lines, st, limit, onlyUnused)
                && old(entries)[entry].Staged(st.(written := lines)) && EndsBelow(old(entries)[entry].points, limit)
    {
      hide MoreSegments, Traces, InStage, Apart, WrittenFrom, EndsBelow;
      RemoveContour(entry);
      if old(Ejecting(lines, st, limit, onlyUnused)) && !(onlyUnused && old(entries[entry].recentlyAccessed)) {
        RestStage(old(entries), entry, lines, st, limit, onlyUnused);
      }
    }

    /** Merges a line into one of the list, or writes it if no end of these is near. */
    method MergeOrWrite(target: ContourItem, writer: ContourWriter, ghost st: Stage, ghost limit: real,
                        ghost onlyUnused: bool)
      requires Valid() && writer.Valid() && target.Valid() && target !in entries && target.elevation == elevation
      modifies entries, target, writer
      ensures Valid() && writer.Valid()
      ensures forall e :: e in entries && old(e.recentlyAccessed) ==> e.recentlyAccessed
      ensures Disposed(Segments(), writer.segs, old(Segments()), old(writer.segs), old(target.segs))
      ensures writer.lines == old(writer.lines) <==> exists e :: e in entries && old(e.Joinable(target))
      ensures old(Ejecting(writer.lines, st, limit, onlyUnused)) && old(target.Staged(st.(written := writer.lines)))
              && old(EndsBelow(target.points, limit))
          ==> Ejecting(writer.lines, st, limit, onlyUnused)
    {
      hide MoreSegments, Joins, Near, Traces, Ends, HighOnRight, ContourItem.Joinable, InStage, Apart, WrittenFrom;
      ghost var points, accessed, start := target.points, target.recentlyAccessed, target.Start();
      ghost var now := st.(written := writer.lines);
      ghost var ready := Ejecting(writer.lines, st, limit, onlyUnused) && target.Staged(now) &&
          EndsBelow(points, limit);
      ghost var k;
      var merged;
      merged, k := MergeInto(target);
      if merged {
        if ready {
          MergedStage(Merging(k, target, now, limit, onlyUnused));
        }
      } else {
        NoneIsNear(target);
        WriteOut(target, writer);
        if ready {
          WrittenStage(old(writer.lines), Polyline(elevation, target.points), st, limit, onlyUnused, points, accessed,
                       start);
        }
      }
    }

    /** The list without a line. */
    lemma RestStage(before: seq<ContourItem>, k: nat, lines: seq<Polyline>, st: Stage, limit: real, onlyUnused: bool)
      requires Valid() && k < |before| && entries == before[..k] + before[k + 1..]
      requires forall i :: 0 <= i < |before| ==> before[i].Valid() && before[i].Staged(st.(written := lines))
      requires forall i :: 0 <= i < |before| ==>
                 (onlyUnused && before[i].recentlyAccessed) || EndsBelow(before[i].points, limit)
      requires st.unused <= st.used && Apart(lines) && st.written <= lines
      requires forall i :: |st.written| <= i < |lines| ==>
                 lines[i].level == elevation && WrittenFrom(lines[i], st.calls, limit)
      ensures Ejecting(lines, st, limit, onlyUnused)
    {
      hide InStage, EndsBelow, WrittenFrom, Apart, Traces;
      forall i | 0 <= i < |entries|
        ensures entries[i].Staged(st.(written := lines))
      {
        assert entries[i] == before[if i < k then i else i + 1];
      }
    }
  }

  lemma WrittenAway(lines: seq<Polyline>, line: Polyline, level: real, points: seq<Point>, source: seq<Point>)
    requires AwayFrom(lines, level, points) && Ends(line.points) == Ends(source) && !EndsNear(points, source)
    ensures AwayFrom(lines + [line], level, points)
  {
    EndsNearSymmetric(points, source);
    hide Ends, Near;
  }

  lemma WrittenApart(lines: seq<Polyline>, line: Polyline, source: seq<Point>)
    requires Apart(lines) && AwayFrom(lines, line.level, source) && Ends(line.points) == Ends(source)
    ensures Apart(lines + [line])
  {
    hide Ends, Near;
    forall i | 0 <= i < |lines| && lines[i].level == line.level
      ensures !EndsNear(lines[i].points, line.points)
    {
      assert !EndsNear(lines[i].points, source);
    }
  }

  /** Along a segment that was supplied for its level the line has the high side on the right. */
  ghost predicate HasSource(line: Polyline, calls: set<Call>) {
    exists c :: c in calls && c.segment.level == line.level && HighOnRight(line.points, c)
  }

  /** Besides, the line ends above y = limit. */
  ghost predicate WrittenFrom(line: Polyline, calls: set<Call>, limit: real) {
    EndsBelow(line.points, limit) && HasSource(line, calls)
  }

  /** The segments of lines and written lines together are those of other lines and written lines. */
  ghost predicate Conserves(lines: seq<seq<Segment>>, written: seq<seq<Segment>>,
                            lines0: seq<seq<Segment>>, written0: seq<seq<Segment>>) {
    forall s :: Total(lines, s) + Total(written, s) == Total(lines0, s) + Total(written0, s)
  }

  lemma ConservesSelf(lines: seq<seq<Segment>>, written: seq<seq<Segment>>)
    ensures Conserves(lines, written, lines, written)
  {
  }

  lemma ConservesTrans(l2: seq<seq<Segment>>, w2: seq<seq<Segment>>, l1: seq<seq<Segment>>, w1: seq<seq<Segment>>,
                       l0: seq<seq<Segment>>, w0: seq<seq<Segment>>)
    requires Conserves(l2, w2, l1, w1) && Conserves(l1, w1, l0, w0)
    ensures Conserves(l2, w2, l0, w0)
  {
    hide Total;
    forall s
      ensures Total(l2, s) + Total(w2, s) == Total(l0, s) + Total(w0, s)
    {
      assert Total(l2, s) + Total(w2, s) == Total(l1, s) + Total(w1, s);
    }
  }

  /** A line has gone into the others, or has been written, whichever way around. */
  ghost predicate Disposed(lines: seq<seq<Segment>>, written: seq<seq<Segment>>, rest: seq<seq<Segment>>,
                           written0: seq<seq<Segment>>, line: seq<Segment>) {
    || (written == written0 && MoreSegments(lines, rest, line))
    || (lines == rest && |written| == |written0| + 1 && written[..|written0|] == written0
        && Joins(written[|written0|], line, []))
  }

  lemma DisposedConserves(lines: seq<seq<Segment>>, written: seq<seq<Segment>>, rest: seq<seq<Segment>>,
                         written0: seq<seq<Segment>>, lines0: seq<seq<Segment>>, line: seq<Segment>)
    requires Disposed(lines, written, rest, written0, line) && MoreSegments(lines0, rest, line)
    ensures Conserves(lines, written, lines0, written0)
  {
    hide MoreSegments, Joins, Conserves;
    if written == written0 && MoreSegments(lines, rest, line) {
      MergedConserves(lines, written, rest, lines0, line);
    } else {
      WrittenConserves(rest, written0, written[|written0|], lines0, line);
      assert written == written0 + [written[|written0|]];
    }
  }

  lemma MergedConserves(lines: seq<seq<Segment>>, written: seq<seq<Segment>>, rest: seq<seq<Segment>>,
                        lines0: seq<seq<Segment>>, line: seq<Segment>)
    requires MoreSegments(lines0, rest, line) && MoreSegments(lines, rest, line)
    ensures Conserves(lines, written, lines0, written)
  {
    hide Total, Count;
    forall s
      ensures Total(lines, s) == Total(lines0, s)
    {
      assert Total(lines, s) == Total(rest, s) + Count(line, s);
    }
  }

  lemma WrittenConserves(rest: seq<seq<Segment>>, written: seq<seq<Segment>>, line': seq<Segment>,
                         lines0: seq<seq<Segment>>, line: seq<Segment>)
    requires MoreSegments(lines0, rest, line) && Joins(line', line, [])
    ensures Conserves(rest, written + [line'], lines0, written)
  {
    hide Total, Count;
    forall s
      ensures Total(rest, s) + Total(written + [line'], s) == Total(lines0, s) + Total(written, s)
    {
      TotalConcat(written, [line'], s);
      TotalOne(line', s);
      assert Count(line', s) == Count(line, s) + Count([], s);
      CountNothing(s);
    }
  }

  lemma CountNothing(s: Segment)
    ensures Count([], s) == 0
  {
  }

  /** A writer that never fails. */
  class ContourWriter {
    var lines: seq<Polyline>
    ghost var segs: seq<seq<Segment>>

    constructor ()
      ensures Valid() && lines == [] && segs == []
    {
      lines, segs := [], [];
    }

    /** Every written line consists of its segments. */
    ghost predicate Valid()
      reads this
    {
      |segs| == |lines| && forall i :: 0 <= i < |lines| ==> Traces(lines[i].level, lines[i].points, segs[i])
    }

    method Write(item: ContourItem)
      requires Valid() && Traces(item.elevation, item.points, item.segs)
      modifies this
      ensures Valid()
      ensures lines == old(lines) + [Polyline(item.elevation, item.points)] && segs == old(segs) + [item.segs]
    {
      lines := lines + [Polyline(item.elevation, item.points)];
      segs := segs + [item.segs];
    }
  }

  lemma SameSelf(a: seq<seq<Segment>>)
    ensures SameSegments(a, a)
  {
  }

  lemma SameMembers(a: seq<ContourItem>, b: seq<ContourItem>)
    requires multiset(a) == multiset(b)
    ensures forall e :: e in a <==> e in b
  {
    assert forall e :: e in a <==> e in multiset(a);
    assert forall e :: e in b <==> e in multiset(b);
  }

  lemma SameTrans(c: seq<seq<Segment>>, b: seq<seq<Segment>>, a: seq<seq<Segment>>)
    requires SameSegments(c, b) && SameSegments(b, a)
    ensures SameSegments(c, a)
  {
    forall s
      ensures Total(c, s) == Total(a, s)
    {
      assert Total(c, s) == Total(b, s);
    }
  }

  lemma SameMore(c: seq<seq<Segment>>, b: seq<seq<Segment>>, a: seq<seq<Segment>>, more: seq<Segment>)
    requires SameSegments(c, b) && MoreSegments(b, a, more)
    ensures MoreSegments(c, a, more)
  {
    hide Total, Count;
    forall s
      ensures Total(c, s) == Total(a, s) + Count(more, s)
    {
      assert Total(c, s) == Total(b, s);
    }
  }

  lemma JoinsNothing(a: seq<Segment>, b: seq<Segment>)
    requires Joins(a, [], b)
    ensures forall s :: Count(a, s) == Count(b, s)
  {
    forall s
      ensures Count(a, s) == Count(b, s)
    {
      assert Count([], s) == 0;
    }
  }

  lemma SameAsMore(b: seq<seq<Segment>>, a: seq<seq<Segment>>, more: seq<Segment>, more': seq<Segment>)
    requires MoreSegments(b, a, more) && forall s :: Count(more, s) == Count(more', s)
    ensures MoreSegments(b, a, more')
  {
    hide Total, Count;
  }

  lemma MatchIsNear(tails: seq<Point>, p: Point, i: nat)
    requires i < |tails| && Matches(tails, p, i)
    ensures Near(tails[i], p)
  {
  }

  lemma NoHit(tails: seq<Point>, p: Point)
    requires BinarySearch(tails, p.x, 0, |tails| - 1) == -1
    ensures forall i :: 0 <= i < |tails| ==> !Arrives(tails, p, i)
  {
  }

  lemma ScanEnds(tails: seq<Point>, p: Point, hit: nat, first: nat, last: nat)
    requires first <= hit < |tails| && first <= last <= |tails| && BinarySearch(tails, p.x, 0, |tails| - 1) == hit
    requires first > 0 ==> !NearX(tails, first, p.x)
    requires last < |tails| ==> !NearX(tails, last, p.x)
    requires forall j :: first <= j < last ==> !Matches(tails, p, j)
    ensures forall i :: 0 <= i < |tails| && Arrives(tails, p, i) ==> !Matches(tails, p, i)
  {
    hide BinarySearch, NearX;
    forall i | 0 <= i < |tails| && Arrives(tails, p, i)
      ensures !Matches(tails, p, i)
    {
      assert first == 0;
      assert i < last;
    }
  }

  lemma SearchStep(tails: seq<Point>, x: real, start: int, end: int)
    requires 0 <= start <= end + 1 <= |tails|
    ensures end < start ==> BinarySearch(tails, x, start, end) == -1
    ensures start <= end ==>
              var middle := (end + start) / 2;
              BinarySearch(tails, x, start, end) ==
              if tails[middle].x < x then BinarySearch(tails, x, middle + 1, end)
              else if tails[middle].x > x then BinarySearch(tails, x, start, middle - 1)
              else middle
  {
  }
}

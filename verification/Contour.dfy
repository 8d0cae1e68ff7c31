/** The generator of contour lines: the levels, what is read line by line, and what is written. */
module Contours {
  import opened Wrappers
  import opened ContourItems
  import opened ContourLevels
  import opened ContourTraces

  ghost function Concat(all: seq<seq<seq<Segment>>>): seq<seq<Segment>> {
    if all == [] then [] else Concat(all[..|all| - 1]) + all[|all| - 1]
  }

  lemma {:induction false} ConcatUpdate(all: seq<seq<seq<Segment>>>, k: nat, lines: seq<seq<Segment>>, s: Segment)
    requires k < |all|
    ensures Total(Concat(all[k := lines]), s) == Total(Concat(all), s) - Total(all[k], s) + Total(lines, s)
  {
    hide Total;
    var n := |all| - 1;
    TotalConcat(Concat(all[..n]), all[n], s);
    if k == n {
      assert all[k := lines][..n] == all[..n];
      TotalConcat(Concat(all[..n]), lines, s);
    } else {
      assert all[k := lines][..n] == all[..n][k := lines];
      ConcatUpdate(all[..n], k, lines, s);
      TotalConcat(Concat(all[..n][k := lines]), all[n], s);
    }
  }

  lemma {:induction false} ConcatInsert(all: seq<seq<seq<Segment>>>, k: nat)
    requires k <= |all|
    ensures Concat(InsertedAt(all, k, [])) == Concat(all)
  {
    var n := |all|;
    var more := InsertedAt(all, k, []);
    if k == n {
      assert more[..n] == all;
    } else {
      assert more[..n] == InsertedAt(all[..n - 1], k, []);
      ConcatInsert(all[..n - 1], k);
    }
  }

  /** All segments supplied are in lines or have been written. */
  ghost predicate Conserved(lines: seq<seq<Segment>>, written: seq<seq<Segment>>, supplied: seq<Segment>) {
    forall s :: Total(lines, s) + Total(written, s) == Count(supplied, s)
  }

  lemma AttachConserves(all: seq<seq<seq<Segment>>>, k: nat, lines: seq<seq<Segment>>, written: seq<seq<Segment>>,
                        supplied: seq<Segment>, c: Segment)
    requires k < |all| && MoreSegments(lines, all[k], [c]) && Conserved(Concat(all), written, supplied)
    ensures Conserved(Concat(all[k := lines]), written, supplied + [c])
  {
    hide Total, Count, Concat;
    forall s
      ensures Total(Concat(all[k := lines]), s) + Total(written, s) == Count(supplied + [c], s)
    {
      ConcatUpdate(all, k, lines, s);
      CountConcat(supplied, [c], s);
      assert Total(lines, s) == Total(all[k], s) + Count([c], s);
    }
  }

  lemma EjectConserves(all: seq<seq<seq<Segment>>>, k: nat, lines: seq<seq<Segment>>, written: seq<seq<Segment>>,
                       written': seq<seq<Segment>>, supplied: seq<Segment>)
    requires k < |all| && Conserves(lines, written', all[k], written) && Conserved(Concat(all), written, supplied)
    ensures Conserved(Concat(all[k := lines]), written', supplied)
  {
    hide Total, Count, Concat;
    forall s
      ensures Total(Concat(all[k := lines]), s) + Total(written', s) == Count(supplied, s)
    {
      ConcatUpdate(all, k, lines, s);
      assert Total(lines, s) + Total(written', s) == Total(all[k], s) + Total(written, s);
    }
  }

  /** Without lines under construction everything supplied has been written. */
  lemma {:induction false} ConcatEmpty(all: seq<seq<seq<Segment>>>)
    requires forall k :: 0 <= k < |all| ==> all[k] == []
    ensures Concat(all) == []
  {
    if all == [] {
    } else {
      ConcatEmpty(all[..|all| - 1]);
    }
  }

  ghost predicate Own(levels: seq<ContourLevel>, items: set<ContourItem>)
    reads levels
  {
    forall i :: 0 <= i < |levels| ==> forall e :: e in levels[i].entries ==> e in items
  }

  ghost predicate InOrder(levels: seq<ContourLevel>) {
    forall i, j :: 0 <= i < j < |levels| ==> levels[i].elevation < levels[j].elevation
  }

  ghost predicate AllValid(levels: seq<ContourLevel>, items: set<ContourItem>)
    requires Own(levels, items)
    reads levels, items
  {
    forall i :: 0 <= i < |levels| ==> levels[i].Valid()
  }

  /** An empty level in the right place changes nothing. */
  lemma EmptyLevelInserted(levels: seq<ContourLevel>, items: set<ContourItem>, k: nat, level: ContourLevel)
    requires Own(levels, items) && InOrder(levels) && AllValid(levels, items)
    requires k <= |levels| && level.Valid() && level.entries == []
    requires forall i :: 0 <= i < k ==> levels[i].elevation < level.elevation
    requires forall i :: k <= i < |levels| ==> levels[i].elevation > level.elevation
    ensures var after := InsertedAt(levels, k, level);
            && Own(after, items) && InOrder(after) && AllValid(after, items)
            && Concat(LinesOf(after, items)) == Concat(LinesOf(levels, items))
            && forall st :: AllStaged(levels, items, st) ==> AllStaged(after, items, st)
  {
    hide Concat, ContourLevel.Valid, InStage;
    var after, lines := InsertedAt(levels, k, level), LinesOf(levels, items);
    forall i | 0 <= i < |after|
      ensures after[i].Valid() && after[i].Segments() == InsertedAt(lines, k, [])[i]
    {
    }
    assert LinesOf(after, items) == InsertedAt(lines, k, []);
    ConcatInsert(lines, k);
  }

  ghost predicate AllStaged(levels: seq<ContourLevel>, items: set<ContourItem>, st: Stage)
    requires Own(levels, items) && AllValid(levels, items)
    reads levels, items
  {
    forall i :: 0 <= i < |levels| ==> levels[i].Staged(st)
  }

  /** A later stage: more has been supplied, and only lines of one level have been written since. */
  ghost predicate Onward(before: Stage, after: Stage, level: real) {
    && before.calls <= after.calls && before.unused <= after.unused && before.used <= after.used
    && before.unused <= before.used && after.unused <= after.used
    && before.written <= after.written
    && forall i :: |before.written| <= i < |after.written| ==> after.written[i].level == level
  }

  lemma StageOnward(before: Stage, after: Stage, level: real, own: real, points: seq<Point>, accessed: bool,
                    start: Call)
    requires Onward(before, after, level) && (own == level ==> before.written == after.written)
    requires InStage(before, own, points, accessed, start)
    ensures InStage(after, own, points, accessed, start)
  {
    hide EndsNear, Ends;
    forall i | 0 <= i < |after.written| && after.written[i].level == own
      ensures !EndsNear(after.written[i].points, points)
    {
      assert i < |before.written|;
      assert after.written[i] == before.written[i];
    }
  }

  datatype Attaching = Attaching(k: nat, c: Call)

  datatype Ejecting_ = Ejecting_(k: nat, onlyUnused: bool)

  /** What happens to level k between two stages. */
  datatype Change = Change(k: nat, before: Stage, after: Stage)

  ghost predicate AllFrom(lines: seq<Polyline>, calls: set<Call>, limit: real) {
    forall i :: 0 <= i < |lines| ==> WrittenFrom(lines[i], calls, limit)
  }

  lemma AllFromMore(lines: seq<Polyline>, calls: set<Call>, limit: real, calls': set<Call>, limit': real)
    requires AllFrom(lines, calls, limit) && calls <= calls' && limit <= limit'
    ensures AllFrom(lines, calls', limit')
  {
    hide HighOnRight, Ends;
  }

  /** A point below everything that has been written. */
  lemma BelowIsFresh(st: Stage, calls: set<Call>, limit: real, p: Point)
    requires AllFrom(st.written, calls, limit) && limit <= p.y - 0.5 && p.y <= st.used
    ensures Fresh(st, p)
  {
    hide HighOnRight, Ends;
    forall i | 0 <= i < |st.written|
      ensures EndsBelow(st.written[i].points, p.y - 0.5)
    {
      assert WrittenFrom(st.written[i], calls, limit);
    }
  }

  ghost function LinesOf(levels: seq<ContourLevel>, items: set<ContourItem>): (r: seq<seq<seq<Segment>>>)
    requires Own(levels, items)
    reads levels, items
    ensures |r| == |levels| && forall i :: 0 <= i < |levels| ==> r[i] == levels[i].Segments()
  {
    seq(|levels|, i requires 0 <= i < |levels| && Own(levels, items) reads levels, items => levels[i].Segments())
  }

  class GDALContourGenerator {
    const setup: Setup
    const writer: ContourWriter
    var lineIndex: int
    var lastLine: seq<real>
    var thisLine: seq<real>
    var levels: seq<ContourLevel>
    ghost var items: set<ContourItem>
    ghost var supplied: seq<Call>
    /** The lines of the raster have been processed down to here, and the current one reaches down to there. */
    ghost var top: real
    ghost var bottom: real

    constructor (setup: Setup)
      requires setup.Valid()
      ensures Valid() && fresh(Repr()) && this.setup == setup
      ensures supplied == [] && lineIndex == -1 && levels == [] && items == {} && Idle()
      ensures fresh(writer)
    {
      this.setup := setup;
      lineIndex, levels, items, supplied := -1, [], {}, [];
      top, bottom := -0.5, -0.5;
      lastLine, thisLine := seq(setup.width, _ => 0.0), seq(setup.width, _ => 0.0);
      writer := new ContourWriter();
    }

    ghost function Repr(): set<object>
      reads this
    {
      {this, writer} + (set l | l in levels) + items
    }

    /** Every line under construction belongs to the generator. */
    ghost predicate Owns()
      reads this`levels, this`items, levels
    {
      Own(levels, items)
    }

    /** The levels are in order, so that there is one of each value. */
    ghost predicate Sorted()
      reads this`levels
    {
      InOrder(levels)
    }

    /** The lines under construction, level by level. */
    ghost function Lines(): (r: seq<seq<seq<Segment>>>)
      requires Owns()
      reads this`levels, this`items, levels, items
      ensures |r| == |levels| && forall i :: 0 <= i < |levels| ==> r[i] == levels[i].Segments()
    {
      LinesOf(levels, items)
    }

    ghost predicate LevelsValid()
      requires Owns()
      reads this`levels, this`items, levels, items
    {
      AllValid(levels, items)
    }

    ghost predicate Valid()
      reads this, levels, items, writer
    {
      && setup.Valid() && |lastLine| == |thisLine| == setup.width
      && Owns() && Sorted() && LevelsValid() && writer.Valid()
      && Conserved(Concat(Lines()), writer.segs, Segments(supplied))
      && Separate()
    }

    ghost function Now(): Stage
      reads this`supplied, this`top, this`bottom, writer
    {
      Stage(writer.lines, Supplied(), top, if bottom < top then top else bottom)
    }

    ghost function Supplied(): set<Call>
      reads this`supplied
    {
      set c | c in supplied
    }

    /**
     * What has been written ends well above the line in process, no two ends of one level being near each other, and
     * everything under construction is away from it.
     */
    ghost predicate Separate()
      requires Owns() && LevelsValid()
      reads this`levels, this`items, this`supplied, this`top, this`bottom, levels, items, writer
    {
      Apart(writer.lines) && AllFrom(writer.lines, Supplied(), top - 0.5) && AllStaged(levels, items, Now())
    }

    /** No line of the raster is in process. */
    ghost predicate Idle()
      reads this`top, this`bottom, this`lineIndex
    {
      lineIndex >= -1 && bottom <= top && top == (if lineIndex == -1 then 0 else lineIndex) as real - 0.5
    }

    /** What happened to one level has left the others behind, but away from what has been written. */
    twostate lemma OthersStaged(c: Change)
      requires old(Owns()) && old(LevelsValid()) && levels == old(levels) && c.k < |levels|
      requires forall j :: 0 <= j < |levels| && j != c.k ==> unchanged(levels[j])
      requires forall j, e :: 0 <= j < |levels| && j != c.k && e in levels[j].entries ==> unchanged(e)
      requires Owns() && LevelsValid() && Sorted()
      requires old(AllStaged(levels, items, c.before)) && levels[c.k].Staged(c.after)
      requires Onward(c.before, c.after, levels[c.k].elevation)
      ensures AllStaged(levels, items, c.after)
    {
      hide InStage, ContourItem.Valid;
      forall j | 0 <= j < |levels| && j != c.k
        ensures levels[j].Staged(c.after)
      {
        assert old(levels[j].Staged(c.before));
        forall m | 0 <= m < |levels[j].entries|
          ensures levels[j].entries[m].Staged(c.after)
        {
          var e := levels[j].entries[m];
          assert e in levels[j].entries && unchanged(e);
          assert old(e.Staged(c.before));
          StageOnward(c.before, c.after, levels[c.k].elevation, e.elevation, e.points, e.recentlyAccessed, e.Start());
        }
      }
    }

    /** Lines of different levels are different objects. */
    lemma LevelsDiffer(i: nat, j: nat)
      requires Valid() && i < |levels| && j < |levels| && i != j
      ensures levels[i] != levels[j]
      ensures forall e :: e in levels[i].entries ==> e !in levels[j].entries
    {
      assert forall m :: 0 <= m < |levels[i].entries| ==> levels[i].entries[m].elevation == levels[i].elevation;
      assert forall m :: 0 <= m < |levels[j].entries| ==> levels[j].entries[m].elevation == levels[j].elevation;
    }

    /** Finds the level of a value by binary search, or inserts it in order. */
    method FindLevel(elevation: real) returns (k: nat)
      requires Valid()
      modifies this`levels
      ensures Valid() && k < |levels| && levels[k].elevation == elevation
      ensures levels == old(levels) || (k <= |old(levels)| && levels == InsertedAt(old(levels), k, levels[k]) &&
                                        fresh(levels[k]))
    {
      hide Owns, LevelsValid, Conserved, Concat;
      var low, high := 0, |levels| - 1;
      while low <= high
        invariant 0 <= low <= high + 1 <= |levels|
        invariant forall i :: 0 <= i < low ==> levels[i].elevation < elevation
        invariant forall i :: high < i < |levels| ==> levels[i].elevation > elevation
        decreases high - low + 1
      {
        var mid := (high + low) / 2;
        var midElevation := levels[mid].elevation;
        if midElevation < elevation {
          low := mid + 1;
        } else if midElevation > elevation {
          high := mid - 1;
        } else {
          return mid;
        }
      }
      InsertLevel(high + 1, elevation);
      return high + 1;
    }

    method InsertLevel(k: nat, elevation: real)
      requires Valid() && k <= |levels|
      requires forall i :: 0 <= i < k ==> levels[i].elevation < elevation
      requires forall i :: k <= i < |levels| ==> levels[i].elevation > elevation
      modifies this`levels
      ensures Valid() && k < |levels| && levels[k].elevation == elevation && fresh(levels[k])
      ensures levels == InsertedAt(old(levels), k, levels[k])
    {
      hide Conserved, Concat, ContourLevel.Valid, Own, InOrder, AllValid, AllStaged, AllFrom, Apart;
      var newLevel := new ContourLevel(elevation);
      EmptyLevelInserted(levels, items, k, newLevel);
      levels := InsertedAt(levels, k, newLevel);
    }

    /** All lines of other levels are different from those of level k. */
    lemma AllApart(k: nat)
      requires Valid() && k < |levels|
      ensures forall j :: 0 <= j < |levels| && j != k ==> levels[j] != levels[k]
      ensures forall j, e :: 0 <= j < |levels| && j != k && e in levels[j].entries ==> e !in levels[k].entries
    {
      hide Conserved, Concat, LevelsValid;
      forall j | 0 <= j < |levels| && j != k
        ensures levels[j] != levels[k] && forall e :: e in levels[j].entries ==> e !in levels[k].entries
      {
        LevelsDiffer(j, k);
      }
    }

    /** What happens to one level leaves the others as they were. */
    twostate lemma LevelChanged(k: nat)
      requires old(Owns()) && old(LevelsValid()) && levels == old(levels) && k < |levels|
      requires forall j :: 0 <= j < |levels| && j != k ==> unchanged(levels[j])
      requires forall j, e :: 0 <= j < |levels| && j != k && e in levels[j].entries ==> unchanged(e)
      requires levels[k].Valid() && old(items) <= items && forall e :: e in levels[k].entries ==> e in items
      ensures Owns() && LevelsValid() && Lines() == old(Lines())[k := levels[k].Segments()]
    {
      hide ContourItem.Valid;
      forall j | 0 <= j < |levels| && j != k
        ensures levels[j].Valid() && levels[j].Segments() == old(levels[j].Segments())
      {
        assert old(levels[j].Valid());
        assert forall m :: 0 <= m < |levels[j].entries| ==> levels[j].entries[m] in levels[j].entries;
      }
    }

    /** The segment lies in the line in process. */
    ghost predicate Inside(c: Call)
      reads this`top, this`bottom
    {
      CallBetween(c, top, bottom)
    }

    /** Adds a segment to the lines of level k. */
    method AttachAt(k: nat, c: Call)
      requires Valid() && k < |levels| && c.segment.level == levels[k].elevation && Inside(c)
      modifies this`items, this`supplied, levels[k], levels[k].entries
      ensures Valid() && supplied == old(supplied) + [c]
      ensures fresh(items - old(items)) && old(items) <= items
    {
      hide Conserved, Concat, MoreSegments, ContourLevel.Segments, ContourLevel.Valid, LevelsValid, Lines, Separate,
          ContourLevel.Attached;
      AllApart(k);
      LevelIsValid(k);
      ghost var lines := Lines();
      levels[k].Attach(c.segment.from, c.segment.to, c.leftHigh);
      items := items + set e | e in levels[k].entries;
      supplied := supplied + [c];
      forall j, e | 0 <= j < |levels| && j != k && e in levels[j].entries
        ensures unchanged(e)
      {
        assert e in old(levels[j].entries) && e !in old(levels[k].entries);
      }
      LevelChanged(k);
      AttachConserves(lines, k, levels[k].Segments(), writer.segs, Segments(old(supplied)), c.segment);
      assert Segments(supplied) == Segments(old(supplied)) + [c.segment];
      AttachedApart(Attaching(k, c));
    }

    /** A new segment keeps everything under construction away from what has been written. */
    twostate lemma AttachedApart(a: Attaching)
      requires old(Owns()) && old(LevelsValid()) && old(Separate()) && levels == old(levels) && a.k < |levels|
      requires forall j :: 0 <= j < |levels| && j != a.k ==> unchanged(levels[j])
      requires forall j, e :: 0 <= j < |levels| && j != a.k && e in levels[j].entries ==> unchanged(e)
      requires Owns() && LevelsValid() && Sorted() && unchanged(writer) && unchanged(this`top) && unchanged(this`bottom)
      requires supplied == old(supplied) + [a.c] && a.c.segment.level == levels[a.k].elevation && Inside(a.c)
      requires old(levels[a.k].Valid()) && levels[a.k].Valid()
      requires levels[a.k].Attached(a.c.segment.from, a.c.segment.to, a.c.leftHigh)
      ensures Separate()
    {
      hide InStage, Fresh, WrittenFrom, Apart, ContourLevel.Attached, ContourLevel.Valid;
      var before, after, level := old(Now()), Now(), levels[a.k];
      assert before.calls <= after.calls && a.c in after.calls;
      AllFromMore(writer.lines, before.calls, top - 0.5, after.calls, top - 0.5);
      BelowIsFresh(after, after.calls, top - 0.5, a.c.segment.from);
      BelowIsFresh(after, after.calls, top - 0.5, a.c.segment.to);
      assert old(level.Staged(before));
      level.AttachedOnward(AttachedIn(a.c.segment.from, a.c.segment.to, a.c.leftHigh, before, after));
      OthersStaged(Change(a.k, before, after));
    }

    /** Ejects lines of level k. */
    method EjectAt(k: nat, onlyUnused: bool)
      requires Valid() && k < |levels| && levels[k].Within(top - 0.5, onlyUnused)
      modifies levels[k], levels[k].entries, writer
      ensures Valid() && levels[k].Ejected(onlyUnused)
      ensures forall j :: 0 <= j < |levels| && j != k ==> unchanged(levels[j])
      ensures forall j, e :: 0 <= j < |levels| && j != k && e in levels[j].entries ==> unchanged(e)
    {
      hide Conserved, Conserves, Concat, MoreSegments, ContourLevel.Segments, ContourLevel.Valid, LevelsValid, Lines,
          Separate, ContourLevel.Ejecting, ContourLevel.Within;
      AllApart(k);
      LevelIsValid(k);
      ghost var lines, written, now := Lines(), writer.segs, Now();
      BeginEjecting(k, onlyUnused);
      levels[k].EjectContours(onlyUnused, writer, now, top - 0.5);
      forall j, e | 0 <= j < |levels| && j != k && e in levels[j].entries
        ensures unchanged(e)
      {
        assert e in old(levels[j].entries) && e !in old(levels[k].entries);
      }
      LevelChanged(k);
      EjectConserves(lines, k, levels[k].Segments(), written, writer.segs, Segments(supplied));
      EjectedApart(Ejecting_(k, onlyUnused));
    }

    lemma BeginEjecting(k: nat, onlyUnused: bool)
      requires Valid() && k < |levels| && levels[k].Within(top - 0.5, onlyUnused)
      ensures levels[k].Valid() && levels[k].Ejecting(writer.lines, Now(), top - 0.5, onlyUnused)
    {
      hide Conserved, Concat, InStage, Apart, ContourLevel.Within;
      LevelIsValid(k);
      assert levels[k].Staged(Now());
    }

    /** What has been written of one level is away from what is left. */
    twostate lemma EjectedApart(e: Ejecting_)
      requires old(Owns()) && old(LevelsValid()) && old(Separate()) && levels == old(levels) && e.k < |levels|
      requires forall j :: 0 <= j < |levels| && j != e.k ==> unchanged(levels[j])
      requires forall j, i :: 0 <= j < |levels| && j != e.k && i in levels[j].entries ==> unchanged(i)
      requires Owns() && LevelsValid() && Sorted() && unchanged(this)
      requires levels[e.k].Valid() && levels[e.k].Ejecting(writer.lines, old(Now()), top - 0.5, e.onlyUnused)
      ensures Separate()
    {
      hide InStage, WrittenFrom, Apart, ContourLevel.Valid, ContourLevel.Within;
      var before, after := old(Now()), Now();
      assert after == before.(written := writer.lines);
      assert forall i :: 0 <= i < |before.written| ==> writer.lines[i] == before.written[i];
      assert old(AllFrom(writer.lines, Supplied(), top - 0.5));
      assert AllFrom(writer.lines, Supplied(), top - 0.5);
      OthersStaged(Change(e.k, before, after));
    }

    /** What segments are added to belongs to the generator, or is new. */
    twostate predicate Grows()
      reads this`levels, this`items
    {
      && (forall l :: l in levels ==> l in old(levels) || fresh(l))
      && (forall e :: e in items ==> e in old(items) || fresh(e))
    }

    /** Adds a supplied segment. */
    method AddSegment(c: Call)
      requires Valid() && Inside(c)
      modifies this`levels, this`items, this`supplied, levels, items
      ensures Valid() && supplied == old(supplied) + [c]
      ensures Grows()
    {
      hide Valid;
      var k := FindLevel(c.segment.level);
      InsertedMembers(old(levels), levels, k);
      assert levels[k] in levels;
      OwnsEntries(k);
      assert items == old(items);
      assert levels[k] in old(levels) || fresh(levels[k]);
      assert forall e :: e in levels[k].entries ==> e in old(items);
      assert forall i :: 0 <= i < |levels[k].entries| ==> levels[k].entries[i] in levels[k].entries;
      AttachAt(k, c);
    }

    lemma InsertedMembers(before: seq<ContourLevel>, after: seq<ContourLevel>, k: nat)
      requires k < |after| && (after == before || (k <= |before| && after == InsertedAt(before, k, after[k])))
      ensures forall l :: l in after ==> l in before || (after != before && l == after[k])
    {
    }

    lemma OwnsEntries(k: nat)
      requires Valid() && k < |levels|
      ensures forall e :: e in levels[k].entries ==> e in items
    {
    }

    method EjectContours(onlyUnused: bool)
      requires Valid() && bottom <= top + if onlyUnused then 1.0 else 0.5
      modifies this`top, levels, items, writer
      ensures Valid() && top == old(top) + 1.0
      ensures !onlyUnused ==> forall k :: 0 <= k < |levels| ==> levels[k].entries == []
      ensures onlyUnused ==>
                forall k, e :: 0 <= k < |levels| && e in levels[k].entries ==> e.recentlyAccessed
    {
      hide Valid, ContourLevel.Within;
      MoveTop(onlyUnused);
      for levelIndex := 0 to |levels|
        invariant Valid() && top == old(top) + 1.0
        invariant forall k :: levelIndex <= k < |levels| ==> levels[k].Within(top - 0.5, onlyUnused)
        invariant forall k :: 0 <= k < levelIndex ==> levels[k].Ejected(onlyUnused)
      {
        OwnsEntries(levelIndex);
        assert levels[levelIndex] in old(levels);
        assert forall e :: e in levels[levelIndex].entries ==> e in old(items);
        assert forall i :: 0 <= i < |levels[levelIndex].entries| ==>
            levels[levelIndex].entries[i] in levels[levelIndex].entries;
        EjectNext(levelIndex, onlyUnused);
      }
      AllEjected(onlyUnused);
    }

    lemma AllEjected(onlyUnused: bool)
      requires forall k :: 0 <= k < |levels| ==> levels[k].Ejected(onlyUnused)
      ensures !onlyUnused ==> forall k :: 0 <= k < |levels| ==> levels[k].entries == []
      ensures onlyUnused ==> forall k, e :: 0 <= k < |levels| && e in levels[k].entries ==> e.recentlyAccessed
    {
    }

    /** Ejects lines of level k and leaves all others as they are. */
    method EjectNext(k: nat, onlyUnused: bool)
      requires Valid() && k < |levels| && levels[k].Within(top - 0.5, onlyUnused)
      modifies levels[k], levels[k].entries, writer
      ensures Valid() && levels[k].Ejected(onlyUnused)
      ensures forall j :: 0 <= j < |levels| && j != k ==>
                && (old(levels[j].Within(top - 0.5, onlyUnused)) ==> levels[j].Within(top - 0.5, onlyUnused))
                && (old(levels[j].Ejected(onlyUnused)) ==> levels[j].Ejected(onlyUnused))
    {
      hide Valid, EndsBelow;
      EjectAt(k, onlyUnused);
      forall j | 0 <= j < |levels| && j != k
        ensures levels[j].Within(top - 0.5, onlyUnused) == old(levels[j].Within(top - 0.5, onlyUnused))
        ensures levels[j].Ejected(onlyUnused) == old(levels[j].Ejected(onlyUnused))
      {
        assert forall i :: 0 <= i < |levels[j].entries| ==> levels[j].entries[i] in levels[j].entries;
      }
    }

    /** The line in process is done: what is to be ejected ends well above the next one. */
    ghost method MoveTop(onlyUnused: bool)
      requires Valid() && bottom <= top + if onlyUnused then 1.0 else 0.5
      modifies this`top
      ensures Valid() && top == old(top) + 1.0
      ensures forall k :: 0 <= k < |levels| ==> levels[k].Within(top - 0.5, onlyUnused)
    {
      hide Conserved, Concat, Sorted, ContourLevel.Valid, ContourWriter.Valid, AwayFrom;
      top := top + 1.0;
      AllFromMore(writer.lines, Supplied(), top - 1.5, Supplied(), top - 0.5);
      assert Owns() && LevelsValid() && Lines() == old(Lines());
      forall k | 0 <= k < |levels|
        ensures levels[k].Staged(Now()) && levels[k].Within(top - 0.5, onlyUnused)
      {
        assert old(levels[k].Staged(Now()));
        forall i | 0 <= i < |levels[k].entries|
          ensures levels[k].entries[i].Staged(Now())
          ensures (onlyUnused && levels[k].entries[i].recentlyAccessed) ||
                  EndsBelow(levels[k].entries[i].points, top - 0.5)
        {
          assert old(levels[k].entries[i].Staged(Now()));
        }
      }
    }

    lemma LevelIsValid(k: nat)
      requires Valid() && k < |levels|
      ensures levels[k].Valid() && Lines()[k] == levels[k].Segments()
    {
    }

    method Perturb(line: seq<real>) returns (r: seq<real>)
      requires setup.Valid()
      ensures r == setup.PerturbedLine(line)
    {
      hide Setup.Perturbed;
      r := line;
      for pixelIndex := 0 to |line|
        invariant |r| == |line|
        invariant forall i :: 0 <= i < |line| ==>
            r[i] == if i < pixelIndex then setup.PerturbedLine(line)[i] else line[i]
      {
        if setup.noData != Some(r[pixelIndex]) {
          r := r[pixelIndex := setup.Perturbed(r[pixelIndex])];
        }
      }
    }

    method ClearAt(k: nat)
      requires Valid() && k < |levels| && bottom <= top
      modifies levels[k].entries
      ensures Valid() && forall e :: e in levels[k].entries ==> !e.recentlyAccessed
      ensures forall j, e :: 0 <= j < |levels| && j != k && e in levels[j].entries ==> unchanged(e)
    {
      hide Conserved, Concat, ContourLevel.Segments, ContourLevel.Valid, LevelsValid, Lines, Separate;
      AllApart(k);
      LevelIsValid(k);
      levels[k].ClearAccessed();
      forall j, e | 0 <= j < |levels| && j != k && e in levels[j].entries
        ensures unchanged(e)
      {
        assert e in old(levels[j].entries) && e !in old(levels[k].entries);
      }
      LevelChanged(k);
      assert Lines() == old(Lines());
      ClearedApart(k);
    }

    /** Between lines of the raster it makes no difference what was accessed. */
    twostate lemma ClearedApart(k: nat)
      requires old(Owns()) && old(LevelsValid()) && old(Separate()) && levels == old(levels) && k < |levels|
      requires forall j :: 0 <= j < |levels| && j != k ==> unchanged(levels[j])
      requires forall j, e :: 0 <= j < |levels| && j != k && e in levels[j].entries ==> unchanged(e)
      requires Owns() && LevelsValid() && Sorted() && unchanged(this) && unchanged(writer) && bottom <= top
      requires levels[k].Valid() && old(levels[k].Valid()) && unchanged(levels[k])
      requires forall i :: 0 <= i < |levels[k].entries| ==> levels[k].entries[i].SameLine()
      ensures Separate()
    {
      hide WrittenFrom, Apart, AwayFrom, Ends, ContourLevel.Valid;
      assert Now() == old(Now());
      assert old(levels[k].Staged(Now()));
      forall i | 0 <= i < |levels[k].entries|
        ensures levels[k].entries[i].Staged(Now())
      {
        assert old(levels[k].entries[i].Staged(Now()));
      }
      assert old(AllFrom(writer.lines, Supplied(), top - 0.5));
      OthersStaged(Change(k, Now(), Now()));
    }

    /** Clears the flags that tell which lines the next line of the raster touches. */
    method ClearAccessed()
      requires Valid() && bottom <= top
      modifies items
      ensures Valid()
      ensures forall k, e :: 0 <= k < |levels| && e in levels[k].entries ==> !e.recentlyAccessed
    {
      hide Valid;
      for levelIndex := 0 to |levels|
        invariant Valid()
        invariant forall k, e :: 0 <= k < levelIndex && e in levels[k].entries ==> !e.recentlyAccessed
      {
        OwnsEntries(levelIndex);
        ClearAt(levelIndex);
      }
    }

    /** Makes this line the last one and reads the next one, or copies the last one; there is none before the first. */
    method SwitchLines(scanline: Option<seq<real>>)
      requires Valid() && (scanline.Some? ==> |scanline.value| == setup.width)
      modifies this`lastLine, this`thisLine, this`lineIndex
      ensures Valid()
      ensures lineIndex == if old(lineIndex) == -1 then 0 else old(lineIndex)
      ensures thisLine == setup.PerturbedLine(if scanline.Some? then scanline.value else old(thisLine))
      ensures lastLine == if old(lineIndex) == -1 then thisLine else old(thisLine)
    {
      hide LevelsValid, Owns, Sorted, Lines, Conserved, Concat, Separate;
      lastLine := thisLine;
      thisLine := Perturb(if scanline.Some? then scanline.value else lastLine);
      if lineIndex == -1 {
        lastLine := thisLine;
        lineIndex := 0;
      }
    }

    method AddSegments(calls: seq<Call>)
      requires Valid() && forall c :: c in calls ==> Inside(c)
      modifies this`levels, this`items, this`supplied, levels, items
      ensures Valid() && Grows() && supplied == old(supplied) + calls
    {
      hide Valid, CallBetween;
      for i := 0 to |calls|
        invariant Valid() && Grows() && supplied == old(supplied) + calls[..i]
      {
        assert forall j :: 0 <= j < |levels| ==> levels[j] in levels;
        AddSegment(calls[i]);
      }
      assert calls[..|calls|] == calls;
    }

    /** Traces all levels in a rectangle. */
    method ProcessRect(r: Rect)
      requires Valid() && RectBetween(r, top, bottom)
      modifies this`levels, this`items, this`supplied, levels, items
      ensures Valid() && Grows() && supplied == old(supplied) + setup.RectCalls(r)
    {
      hide Valid, LevelCalls, CallBetween, RectBetween;
      SetupIsValid();
      var startLevel, endLevel := setup.StartLevel(r), setup.EndLevel(r);
      if startLevel > endLevel {
        return;
      }
      for level := startLevel to endLevel + 1
        invariant Valid() && Grows()
        invariant supplied == old(supplied) + setup.LevelsCalls(r, startLevel, level - startLevel)
      {
        assert forall i :: 0 <= i < |levels| ==> levels[i] in levels;
        var calls := TraceLevel(r, setup.Level(level));
        CallsBetween(r, setup.Level(level), top, bottom);
        AddSegments(calls);
      }
    }

    lemma SetupIsValid()
      requires Valid()
      ensures setup.Valid() && |lastLine| == |thisLine| == setup.width
    {
    }

    /** Traces one pixel, whole or in quadrants. */
    method ProcessPixel(pixelIndex: nat)
      requires Valid() && pixelIndex <= setup.width && AtLine()
      modifies this`levels, this`items, this`supplied, levels, items
      ensures Valid() && Grows()
      ensures supplied == old(supplied) + setup.PixelCalls(lastLine, thisLine, lineIndex, pixelIndex)
    {
      hide Valid, Setup.RectCalls, Setup.Quadrant, Setup.HasQuadrant, RectBetween;
      SetupIsValid();
      var v := setup.ValuesAt(lastLine, thisLine, pixelIndex);
      PixelBetween(setup, v, lineIndex, pixelIndex, 0);
      if setup.Whole(v, lineIndex, pixelIndex) {
        ProcessRect(setup.WholeRect(v, lineIndex, pixelIndex));
        return;
      }
      if !setup.Good(v.ul) && !setup.Good(v.ll) && !setup.Good(v.lr) && !setup.Good(v.ur) {
        return;
      }
      for q := 0 to 4
        invariant Valid() && Grows()
        invariant supplied == old(supplied) + setup.QuadrantCalls(v, lineIndex, pixelIndex, q)
      {
        if setup.HasQuadrant(v, lineIndex, pixelIndex, q) {
          assert forall i :: 0 <= i < |levels| ==> levels[i] in levels;
          var r := setup.Quadrant(v, lineIndex, pixelIndex, q);
          PixelBetween(setup, v, lineIndex, pixelIndex, q);
          ProcessRect(r);
        }
      }
    }

    /** Line lineIndex is in process. */
    ghost predicate AtLine()
      reads this`top, this`bottom, this`lineIndex
    {
      top == lineIndex as real - 0.5 && bottom == setup.Bottom(lineIndex)
    }

    method TraceLine()
      requires Valid() && AtLine()
      modifies this`levels, this`items, this`supplied, levels, items
      ensures Valid() && Grows()
      ensures supplied == old(supplied) + setup.Traced(lastLine, thisLine, lineIndex, setup.width + 1)
    {
      hide Valid, Setup.PixelCalls;
      SetupIsValid();
      for pixelIndex := 0 to setup.width + 1
        invariant Valid() && Grows()
        invariant supplied == old(supplied) + setup.Traced(lastLine, thisLine, lineIndex, pixelIndex)
      {
        assert forall i :: 0 <= i < |levels| ==> levels[i] in levels;
        ProcessPixel(pixelIndex);
      }
    }

    method NextLine()
      requires Valid()
      modifies this`lineIndex
      ensures Valid() && lineIndex == old(lineIndex) + 1
    {
      hide LevelsValid, Owns, Sorted, Lines, Conserved, Concat, Separate;
      lineIndex := lineIndex + 1;
    }

    ghost method MoveBottom()
      requires Valid() && Idle() && lineIndex != -1
      modifies this`bottom
      ensures Valid() && AtLine()
    {
      hide Conserved, Concat, Sorted, ContourLevel.Valid, ContourWriter.Valid, AwayFrom, Ends;
      bottom := setup.Bottom(lineIndex);
      assert Owns() && LevelsValid() && Lines() == old(Lines());
      forall k | 0 <= k < |levels|
        ensures levels[k].Staged(Now())
      {
        assert old(levels[k].Staged(Now()));
        forall i | 0 <= i < |levels[k].entries|
          ensures levels[k].entries[i].Staged(Now())
        {
          assert old(levels[k].entries[i].Staged(Now()));
        }
      }
    }

    /** Processes one line of the raster, or the last one again. */
    method ProcessLine(scanline: Option<seq<real>>)
      requires Valid() && Idle() && (if scanline.Some? then |scanline.value| == setup.width
                                     else lineIndex >= setup.height)
      modifies this, levels, items, writer
      ensures Valid() && Idle()
      ensures Grows()
      ensures lineIndex == (if old(lineIndex) == -1 then 0 else old(lineIndex)) + 1
      ensures thisLine == setup.PerturbedLine(if scanline.Some? then scanline.value else old(thisLine))
      ensures lastLine == if old(lineIndex) == -1 then thisLine else old(thisLine)
      ensures supplied == old(supplied) + setup.Traced(lastLine, thisLine, lineIndex - 1, setup.width + 1)
      ensures scanline.None? ==> forall k :: 0 <= k < |levels| ==> levels[k].entries == []
    {
      hide Valid, Setup.PerturbedLine;
      SwitchLines(scanline);
      ClearAccessed();
      MoveBottom();
      TraceLine();
      assert forall i :: 0 <= i < |levels| ==> levels[i] in levels;
      EjectContours(scanline.Some?);
      NextLine();
    }

    /** Feeds a line; after the last one, the last line is processed again and everything is written. */
    method FeedLine(scanline: seq<real>)
      requires Valid() && Idle() && |scanline| == setup.width
      modifies this, levels, items, writer
      ensures Valid() && Idle()
      ensures Grows()
      ensures var y := if old(lineIndex) == -1 then 0 else old(lineIndex);
              var line := setup.PerturbedLine(scanline);
              var last := if old(lineIndex) == -1 then line else old(thisLine);
              && lineIndex == (if y + 1 == setup.height then setup.height + 1 else y + 1)
              && (y + 1 != setup.height ==> thisLine == line)
              && (y + 1 == setup.height ==> forall k :: 0 <= k < |levels| ==> levels[k].entries == [])
              && supplied == old(supplied) + setup.Traced(last, line, y, setup.width + 1)
                             + if y + 1 == setup.height
                                 then setup.Traced(line, setup.PerturbedLine(line), y + 1, setup.width + 1) else []
    {
      hide Valid, Setup.PerturbedLine, Setup.Traced;
      ProcessLine(Some(scanline));
      if lineIndex == setup.height {
        assert forall i :: 0 <= i < |levels| ==> levels[i] in levels;
        ProcessLine(None);
      }
    }

    /** Without lines under construction, what was written is what was supplied. */
    lemma AllWritten()
      requires Valid() && forall k :: 0 <= k < |levels| ==> levels[k].entries == []
      ensures writer.Valid() && forall s :: Total(writer.segs, s) == Count(Segments(supplied), s)
      ensures Apart(writer.lines) && forall i :: 0 <= i < |writer.lines| ==> HasSource(writer.lines[i], Supplied())
    {
      hide Total, Count;
      ConcatEmpty(Lines());
      forall s
        ensures Total(writer.segs, s) == Count(Segments(supplied), s)
      {
        assert Total(Concat(Lines()), s) + Total(writer.segs, s) == Count(Segments(supplied), s);
        TotalNothing(s);
      }
      forall i | 0 <= i < |writer.lines|
        ensures HasSource(writer.lines[i], Supplied())
      {
        assert WrittenFrom(writer.lines[i], Supplied(), top - 0.5);
      }
    }

    /** The first n lines of a raster have been fed. */
    ghost predicate Fed(raster: seq<seq<real>>, n: nat)
      requires n <= |raster| && setup.Fits(raster)
      reads this, levels
    {
      && Idle() && lineIndex == (if n == 0 then -1 else if n == |raster| then n + 1 else n)
      && (0 < n < |raster| ==> thisLine == setup.PerturbedLine(raster[n - 1]))
      && (n == 0 || n == |raster| ==> forall k :: 0 <= k < |levels| ==> levels[k].entries == [])
      && supplied == if n == |raster| then setup.TracedRaster(raster) else setup.TracedLines(raster, n)
    }

    lemma FedNone(raster: seq<seq<real>>)
      requires setup.Fits(raster) && lineIndex == -1 && levels == [] && supplied == [] && Idle()
      ensures Fed(raster, 0)
    {
    }

    lemma FedAll(raster: seq<seq<real>>)
      requires setup.Fits(raster) && Fed(raster, |raster|)
      ensures supplied == setup.TracedRaster(raster) && forall k :: 0 <= k < |levels| ==> levels[k].entries == []
    {
    }

    method FeedNext(raster: seq<seq<real>>, n: nat)
      requires Valid() && setup.Fits(raster) && n < |raster| && Fed(raster, n)
      modifies this, levels, items, writer
      ensures Valid() && Fed(raster, n + 1)
      ensures Grows()
    {
      hide Valid, Setup.PerturbedLine, Setup.Traced;
      assert forall i :: 0 <= i < |levels| ==> levels[i] in levels;
      FeedLine(raster[n]);
    }

    method FeedLines(raster: seq<seq<real>>)
      requires Valid() && setup.Fits(raster) && Fed(raster, 0)
      modifies this, levels, items, writer
      ensures Valid() && Fed(raster, |raster|)
    {
      hide Valid, Fed;
      for y := 0 to |raster|
        invariant Valid() && Fed(raster, y)
        invariant Grows()
      {
        assert forall i :: 0 <= i < |levels| ==> levels[i] in levels;
        FeedNext(raster, y);
      }
    }
  }

  lemma TotalNothing(s: Segment)
    ensures Total([], s) == 0
  {
  }

  /**
   * The contours of a raster: every segment of a level in a pixel has been written, in one of the lines, as often as it
   * occurs, and with its ends moved by less than the joining distance. No two lines of a level could have been joined,
   * and each has the high side on its right along the segment it was started with.
   */
  method ContourGenerate(raster: seq<seq<real>>, width: nat, noData: Option<real>, interval: real, offset: real)
    returns (writer: ContourWriter)
    requires interval != 0.0 && width > 0 && forall y :: 0 <= y < |raster| ==> |raster[y]| == width
    ensures writer.Valid()
    ensures var calls := Setup(width, |raster|, noData, interval, offset).TracedRaster(raster);
            && (forall s :: Total(writer.segs, s) == Count(Segments(calls), s))
            && forall i :: 0 <= i < |writer.lines| ==> HasSource(writer.lines[i], set c | c in calls)
    ensures forall i, j :: 0 <= i < j < |writer.lines| && writer.lines[i].level == writer.lines[j].level ==>
              !EndsNear(writer.lines[i].points, writer.lines[j].points)
  {
    hide GDALContourGenerator.Valid, Setup.PerturbedLine, Setup.Traced, Setup.TracedRaster;
    hide Total, Count, GDALContourGenerator.Fed;
    var gen := new GDALContourGenerator(Setup(width, |raster|, noData, interval, offset));
    gen.FedNone(raster);
    gen.FeedLines(raster);
    gen.FedAll(raster);
    gen.AllWritten();
    writer := gen.writer;
  }
}

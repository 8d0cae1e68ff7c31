/** Polynomial fits through ground control points, over the reals. */
module Crs {
  import opened LeastSquares
  import opened LinearSystems
  import opened Numbers
  import opened Wrappers

  const MAXORDER := 3

  const MSUCCESS := 1
  const MNPTERR := 0
  const MUNSOLVABLE := -1
  const MPARMERR := -3
  const MINTERR := -4

  // ---------------------------------------------------------------------
  // The solver.
  // ---------------------------------------------------------------------

  ghost function Rows(m: array2<real>): (r: Matrix)
    reads m
    ensures |r| == m.Length0
    ensures forall i :: 0 <= i < |r| ==> |r[i]| == m.Length1
    ensures forall i, j :: 0 <= i < |r| && 0 <= j < m.Length1 ==> r[i][j] == m[i, j]
  {
    seq(m.Length0, i requires 0 <= i < m.Length0 reads m =>
      seq(m.Length1, j requires 0 <= j < m.Length1 reads m => m[i, j]))
  }

  /** Finds the entry of greatest magnitude in column i, on or below the diagonal. */
  method FindPivot(m: array2<real>, i: nat) returns (pivot: real, imark: nat)
    requires i < m.Length0 == m.Length1
    ensures i <= imark < m.Length0 && pivot == m[imark, i]
    ensures forall r :: i <= r < m.Length0 ==> AbsReal(m[r, i]) <= AbsReal(pivot)
  {
    pivot, imark := m[i, i], i;
    for i2 := i + 1 to m.Length0
      invariant i <= imark < m.Length0 && pivot == m[imark, i]
      invariant forall r :: i <= r < i2 ==> AbsReal(m[r, i]) <= AbsReal(pivot)
    {
      var temp := AbsReal(m[i2, i]);
      if temp > AbsReal(pivot) {
        pivot, imark := m[i2, i], i2;
      }
    }
  }

  method SwapRows(m: array2<real>, a: array<real>, b: array<real>, i: nat, imark: nat)
    requires a != b && m.Length0 == m.Length1 == a.Length == b.Length
    requires i < m.Length0 && imark < m.Length0
    modifies m, a, b
    ensures System(Rows(m), a[..], b[..]) == old(System(Rows(m), a[..], b[..])).Swapped(i, imark)
  {
    for j := 0 to m.Length1
      invariant forall c :: 0 <= c < j ==> m[i, c] == old(m[imark, c]) && m[imark, c] == old(m[i, c])
      invariant forall r, c :: 0 <= r < m.Length0 && 0 <= c < m.Length1 && (c >= j || r !in {i, imark}) ==>
          m[r, c] == old(m[r, c])
      invariant a[..] == old(a[..]) && b[..] == old(b[..])
    {
      m[imark, j], m[i, j] := m[i, j], m[imark, j];
    }
    assert Rows(m) == Swap(old(Rows(m)), i, imark) by {
      SwapByEntries(old(Rows(m)), Rows(m), i, imark);
    }
    a[imark], a[i] := a[i], a[imark];
    b[imark], b[i] := b[i], b[imark];
  }

  lemma SwapByEntries(m: Matrix, m': Matrix, i: nat, j: nat)
    requires IsSquare(m, |m|) && IsSquare(m', |m|) && i < |m| && j < |m|
    requires forall c :: 0 <= c < |m| ==> m'[i][c] == m[j][c] && m'[j][c] == m[i][c]
    requires forall r, c :: 0 <= r < |m| && 0 <= c < |m| && r !in {i, j} ==> m'[r][c] == m[r][c]
    ensures m' == Swap(m, i, j)
  {
    forall r | 0 <= r < |m|
      ensures m'[r] == Swap(m, i, j)[r]
    {
    }
  }

  /** Takes a multiple of row i away from row r, from column i on, as row i is zero before. */
  method SubtractRow(m: array2<real>, i: nat, r: nat, factor: real)
    requires m.Length0 == m.Length1 && i < m.Length0 && r < m.Length0 && r != i
    requires forall c :: 0 <= c < i ==> m[i, c] == 0.0
    modifies m
    ensures Rows(m) == AddRow(old(Rows(m)), r, -factor, i)
  {
    hide AddRow;
    for j := i to m.Length1
      invariant forall c :: i <= c < j ==> m[r, c] == old(m[r, c]) - factor * old(m[i, c])
      invariant forall k, c :: 0 <= k < m.Length0 && 0 <= c < m.Length1 && !(k == r && i <= c < j) ==>
          m[k, c] == old(m[k, c])
    {
      m[r, j] := m[r, j] - factor * m[i, j];
    }
    RowAddedByEntries(old(Rows(m)), Rows(m), r, factor, i);
  }

  /** Takes a multiple of row i away from row r, so that row r becomes zero in column i. */
  method EliminateRow(m: array2<real>, a: array<real>, b: array<real>, i: nat, r: nat, pivot: real)
    requires a != b && m.Length0 == m.Length1 == a.Length == b.Length
    requires i < m.Length0 && r < m.Length0 && r != i && m[i, i] == pivot != 0.0
    requires forall c :: 0 <= c < i ==> m[i, c] == 0.0
    modifies m, a, b
    ensures System(Rows(m), a[..], b[..]) == old(System(Rows(m), a[..], b[..]).RowAdded(r, -(m[r, i] / pivot), i))
  {
    var factor := m[r, i] / pivot;
    SubtractRow(m, i, r, factor);
    hide AddRow;
    SubtractEntry(a, r, factor, i);
    SubtractEntry(b, r, factor, i);
  }

  method SubtractEntry(a: array<real>, r: nat, factor: real, i: nat)
    requires r < a.Length && i < a.Length
    modifies a
    ensures a[..] == AddEntry(old(a[..]), r, -factor, i)
  {
    NegatedFactor(factor, a[i]);
    var x := a[r] - factor * a[i];
    assert x == a[..][r] + -factor * a[..][i];
    a[r] := x;
  }

  lemma RowAddedByEntries(m: Matrix, m': Matrix, r: nat, factor: real, i: nat)
    requires IsSquare(m, |m|) && IsSquare(m', |m|) && i < |m| && r < |m| && i != r
    requires forall c :: 0 <= c < i ==> m[i][c] == 0.0
    requires forall c :: i <= c < |m| ==> m'[r][c] == m[r][c] - factor * m[i][c]
    requires forall k, c :: 0 <= k < |m| && 0 <= c < |m| && !(k == r && i <= c) ==> m'[k][c] == m[k][c]
    ensures m' == AddRow(m, r, -factor, i)
  {
    forall k | 0 <= k < |m|
      ensures m'[k] == AddRow(m, r, -factor, i)[k]
    {
      if k == r {
        forall c | 0 <= c < |m|
          ensures m'[r][c] == m[r][c] + -factor * m[i][c]
        {
          NegatedFactor(factor, m[i][c]);
          if c < i {
            ZeroFactor(-factor, m[i][c]);
          }
        }
      }
    }
  }

  lemma NegatedFactor(f: real, x: real)
    ensures -f * x == -(f * x)
  {
  }

  lemma AddRowKeepsDiagonal(m: Matrix, i: nat, r: nat, c: real)
    requires IsSquare(m, |m|) && i < |m| && r < |m| && r != i && DiagonalUpTo(m, i)
    ensures DiagonalUpTo(AddRow(m, r, c, i), i)
    ensures forall k :: 0 <= k < |m| && k != r ==> AddRow(m, r, c, i)[k] == m[k]
  {
    var m' := AddRow(m, r, c, i);
    forall k | 0 <= k < i
      ensures m'[r][k] == m[r][k]
    {
      assert m[i][k] == 0.0;
      ZeroFactor(c, m[i][k]);
    }
  }

  lemma SwapKeepsDiagonal(m: Matrix, i: nat, j: nat)
    requires IsSquare(m, |m|) && i <= j < |m| && DiagonalUpTo(m, i)
    ensures DiagonalUpTo(Swap(m, i, j), i)
  {
  }

  /** Column i is zero, outside the diagonal, in the rows before r. */
  ghost predicate ClearedTo(m: Matrix, i: nat, r: nat)
    requires IsSquare(m, |m|) && i < |m| && r <= |m|
  {
    DiagonalUpTo(m, i) && m[i][i] != 0.0 && forall k :: 0 <= k < r && k != i ==> m[k][i] == 0.0
  }

  lemma ClearedRow(m: Matrix, i: nat, r: nat, factor: real)
    requires IsSquare(m, |m|) && i < |m| && r < |m| && r != i && ClearedTo(m, i, r)
    requires m[i][i] != 0.0 ==> factor == m[r][i] / m[i][i]
    ensures forall c :: 0 <= c < i ==> m[i][c] == 0.0
    ensures var m' := AddRow(m, r, -factor, i);
            ClearedTo(m', i, r + 1) && m'[i][i] == m[i][i]
  {
    AddRowKeepsDiagonal(m, i, r, -factor);
    Cleared(m[r][i], m[i][i]);
  }

  lemma Cleared(x: real, d: real)
    requires d != 0.0
    ensures x + -(x / d) * d == 0.0
  {
  }

  lemma ClearedEnds(m: Matrix, i: nat)
    requires IsSquare(m, |m|) && i < |m|
    ensures DiagonalUpTo(m, i) && m[i][i] != 0.0 ==> ClearedTo(m, i, 0)
    ensures ClearedTo(m, i, i) ==> ClearedTo(m, i, i + 1)
    ensures ClearedTo(m, i, |m|) ==> DiagonalUpTo(m, i + 1)
  {
  }

  /** Clears column i above and below the pivot. */
  method ClearColumn(m: array2<real>, a: array<real>, b: array<real>, i: nat, pivot: real)
    requires a != b && m.Length0 == m.Length1 == a.Length == b.Length && i < m.Length0
    requires DiagonalUpTo(Rows(m), i) && m[i, i] == pivot != 0.0
    modifies m, a, b
    ensures DiagonalUpTo(Rows(m), i + 1)
    ensures old(System(Rows(m), a[..], b[..])).ReducesTo(System(Rows(m), a[..], b[..]))
  {
    hide System.ReducesTo, AddRow, AddEntry, ClearedTo, DiagonalUpTo;
    ghost var s0 := System(Rows(m), a[..], b[..]);
    s0.ReduceSelf();
    ClearedEnds(Rows(m), i);
    for r := 0 to m.Length0
      invariant ClearedTo(Rows(m), i, r) && m[i, i] == pivot
      invariant s0.ReducesTo(System(Rows(m), a[..], b[..]))
    {
      ClearedEnds(Rows(m), i);
      if r != i {
        ghost var s := System(Rows(m), a[..], b[..]);
        ClearedRow(s.m, i, r, m[r, i] / pivot);
        s.RowAddedReduces(r, -(m[r, i] / pivot), i);
        EliminateRow(m, a, b, i, r, pivot);
        s0.ReduceTrans(s, System(Rows(m), a[..], b[..]));
      }
    }
    ClearedEnds(Rows(m), i);
  }

  /**
   * Solves two systems with the same matrix, by elimination with partial pivoting in place. The solver gives up
   * exactly on singular matrices; otherwise E and N solve the systems as they were given.
   */
  method SolveMat(m: array2<real>, a: array<real>, b: array<real>, E: array<real>, N: array<real>)
    returns (status: int)
    requires a != b && E != N && E !in {a, b} && N !in {a, b}
    requires m.Length0 == m.Length1 == a.Length == b.Length <= E.Length && a.Length <= N.Length
    modifies m, a, b, E, N
    ensures status in {MSUCCESS, MUNSOLVABLE}
    ensures status == MUNSOLVABLE <==> Singular(old(Rows(m)))
    ensures status == MUNSOLVABLE ==> E[..] == old(E[..]) && N[..] == old(N[..])
    ensures status == MSUCCESS ==>
              && Solves(old(Rows(m)), old(a[..]), E[..a.Length])
              && Solves(old(Rows(m)), old(b[..]), N[..a.Length])
    ensures E[a.Length..] == old(E[a.Length..]) && N[a.Length..] == old(N[a.Length..])
  {
    hide Equivalent;
    ghost var s0 := System(Rows(m), a[..], b[..]);
    s0.ReduceSelf();
    for i := 0 to m.Length0
      invariant DiagonalUpTo(Rows(m), i)
      invariant s0.ReducesTo(System(Rows(m), a[..], b[..]))
      invariant E[..] == old(E[..]) && N[..] == old(N[..])
    {
      hide System.ReducesTo, DiagonalUpTo, Singular;
      var pivot, imark := FindPivot(m, i);
      ghost var s := System(Rows(m), a[..], b[..]);
      if pivot == 0.0 {
        NoPivotSingular(s.m, i);
        s0.ReducesSingular(s);
        return MUNSOLVABLE;
      }
      if imark != i {
        SwapRows(m, a, b, i, imark);
        SwapKeepsDiagonal(s.m, i, imark);
        s.SwappedReduces(i, imark);
        s0.ReduceTrans(s, System(Rows(m), a[..], b[..]));
        assert m[i, i] == Rows(m)[i][i] == s.m[imark][i];
      }
      s := System(Rows(m), a[..], b[..]);
      ClearColumn(m, a, b, i, pivot);
      s0.ReduceTrans(s, System(Rows(m), a[..], b[..]));
    }
    Quotients(m, a, b, E, N);
    DiagonalRegular(s0.m, Rows(m));
    s0.ReducesSolution(System(Rows(m), a[..], b[..]), E[..a.Length], N[..a.Length]);
    return MSUCCESS;
  }

  /** Divides the columns by the diagonal. */
  method Quotients(m: array2<real>, a: array<real>, b: array<real>, E: array<real>, N: array<real>)
    requires a != b && E != N && E !in {a, b} && N !in {a, b}
    requires m.Length0 == m.Length1 == a.Length == b.Length <= E.Length && a.Length <= N.Length
    requires DiagonalUpTo(Rows(m), m.Length0)
    modifies E, N
    ensures Solves(Rows(m), a[..], E[..a.Length]) && Solves(Rows(m), b[..], N[..a.Length])
    ensures E[a.Length..] == old(E[a.Length..]) && N[a.Length..] == old(N[a.Length..])
  {
    for i := 0 to m.Length0
      invariant forall k :: 0 <= k < i ==> m[k, k] != 0.0 && E[k] == a[k] / m[k, k] && N[k] == b[k] / m[k, k]
      invariant forall k :: i <= k < E.Length ==> E[k] == old(E[k])
      invariant forall k :: i <= k < N.Length ==> N[k] == old(N[k])
    {
      assert Rows(m)[i][i] != 0.0;
      E[i] := a[i] / m[i, i];
      N[i] := b[i] / m[i, i];
    }
    DiagonalSolution(Rows(m), a[..], E[..a.Length]);
    DiagonalSolution(Rows(m), b[..], N[..a.Length]);
  }

  // ---------------------------------------------------------------------
  // Control points and polynomials.
  // ---------------------------------------------------------------------

  datatype Gcp = Gcp(e1: real, n1: real, e2: real, n2: real) {
    function Flipped(): Gcp {
      Gcp(e2, n2, e1, n1)
    }
  }

  ghost function Flip(pts: seq<Gcp>): seq<Gcp> {
    seq(|pts|, p requires 0 <= p < |pts| => pts[p].Flipped())
  }

  function Term(t: int, e: real, n: real): real {
    match t
    case 1 => 1.0
    case 2 => e
    case 3 => n
    case 4 => e * e
    case 5 => e * n
    case 6 => n * n
    case 7 => e * e * e
    case 8 => e * e * n
    case 9 => e * n * n
    case 10 => n * n * n
    case _ => 0.0
  }

  /** The values of the first size terms at a point. */
  ghost function Terms(size: nat, e: real, n: real): (t: seq<real>)
    ensures |t| == size && forall j :: 0 <= j < size ==> t[j] == Term(j + 1, e, n)
  {
    seq(size, j requires 0 <= j < size => Term(j + 1, e, n))
  }

  ghost function TermRows(pts: seq<Gcp>, size: nat): (ts: Matrix)
    ensures |ts| == |pts| && Wide(ts, size)
    ensures forall p :: 0 <= p < |pts| ==> ts[p] == Terms(size, pts[p].e1, pts[p].n1)
  {
    seq(|pts|, p requires 0 <= p < |pts| => Terms(size, pts[p].e1, pts[p].n1))
  }

  ghost function Eastings(pts: seq<Gcp>): (a: seq<real>)
    ensures |a| == |pts| && forall p :: 0 <= p < |pts| ==> a[p] == pts[p].e2
  {
    seq(|pts|, p requires 0 <= p < |pts| => pts[p].e2)
  }

  ghost function Northings(pts: seq<Gcp>): (a: seq<real>)
    ensures |a| == |pts| && forall p :: 0 <= p < |pts| ==> a[p] == pts[p].n2
  {
    seq(|pts|, p requires 0 <= p < |pts| => pts[p].n2)
  }

  /** The points lie on a common curve given by the first size terms, so that they determine no transformation. */
  ghost predicate OnCurve(pts: seq<Gcp>, size: nat) {
    exists v :: |v| == size && NonZero(v) && forall p :: 0 <= p < |pts| ==>
        Dot(Terms(size, pts[p].e1, pts[p].n1), v) == 0.0
  }

  lemma OnCurveDependent(pts: seq<Gcp>, size: nat)
    ensures OnCurve(pts, size) <==> Dependent(TermRows(pts, size), size)
  {
    var ts := TermRows(pts, size);
    if OnCurve(pts, size) {
      var v :| |v| == size && NonZero(v) && forall p :: 0 <= p < |pts| ==>
          Dot(Terms(size, pts[p].e1, pts[p].n1), v) == 0.0;
      assert Dots(ts, v) == Zeros(|ts|);
    }
    if Dependent(ts, size) {
      var v :| |v| == size && NonZero(v) && Dots(ts, v) == Zeros(|ts|);
      forall p | 0 <= p < |pts|
        ensures Dot(Terms(size, pts[p].e1, pts[p].n1), v) == 0.0
      {
        assert Dots(ts, v)[p] == 0.0;
      }
    }
  }

  /** The coefficients fit the points better than any others do. */
  ghost predicate BestFit(pts: seq<Gcp>, E: seq<real>, N: seq<real>)
    requires |E| == |N|
  {
    && StrictlyBest(TermRows(pts, |E|), Eastings(pts), E)
    && StrictlyBest(TermRows(pts, |E|), Northings(pts), N)
  }

  /** The coefficients map every point to its target. */
  ghost predicate ExactFit(pts: seq<Gcp>, E: seq<real>, N: seq<real>)
    requires |E| == |N|
  {
    forall p :: 0 <= p < |pts| ==>
      var t := Terms(|E|, pts[p].e1, pts[p].n1); Dot(t, E) == pts[p].e2 && Dot(t, N) == pts[p].n2
  }

  /** The arrays of a set of control points as values; the points with a positive status are active. */
  datatype Columns = Columns(e1: seq<real>, n1: seq<real>, e2: seq<real>, n2: seq<real>, status: seq<int>) {
    ghost predicate Valid() {
      |e1| == |n1| == |e2| == |n2| == |status|
    }

    ghost function Flipped(): Columns {
      Columns(e2, n2, e1, n1, status)
    }

    ghost function Active(k: nat): (pts: seq<Gcp>)
      requires Valid() && k <= |e1|
    {
      if k == 0 then []
      else if status[k - 1] > 0 then Active(k - 1) + [Gcp(e1[k - 1], n1[k - 1], e2[k - 1], n2[k - 1])]
      else Active(k - 1)
    }

    lemma ActiveNext(k: nat)
      requires Valid() && k < |e1|
      ensures Active(k + 1) == if status[k] > 0 then Active(k) + [Gcp(e1[k], n1[k], e2[k], n2[k])] else Active(k)
    {
    }

    lemma {:induction false} FlippedActive(k: nat)
      requires Valid() && k <= |e1|
      ensures Flipped().Active(k) == Flip(Active(k))
    {
      if k > 0 {
        FlippedActive(k - 1);
      }
    }

    lemma {:induction false} ActiveGrows(j: nat, k: nat)
      requires Valid() && j <= k <= |e1|
      ensures |Active(j)| <= |Active(k)|
    {
      if j < k {
        ActiveGrows(j, k - 1);
      }
    }
  }

  class ControlPoints {
    var count: nat
    var e1: array<real>
    var n1: array<real>
    var e2: array<real>
    var n2: array<real>
    var status: array<int>

    constructor (e1: array<real>, n1: array<real>, e2: array<real>, n2: array<real>, status: array<int>)
      requires e1.Length == n1.Length == e2.Length == n2.Length == status.Length
      ensures Valid() && count == e1.Length
      ensures this.e1 == e1 && this.n1 == n1 && this.e2 == e2 && this.n2 == n2 && this.status == status
    {
      this.count := e1.Length;
      this.e1, this.n1, this.e2, this.n2, this.status := e1, n1, e2, n2, status;
    }

    ghost predicate Valid()
      reads this
    {
      count <= e1.Length && count <= n1.Length && count <= e2.Length && count <= n2.Length && count <= status.Length
    }

    ghost function Footprint(): set<object>
      reads this
    {
      {this, e1, n1, e2, n2, status}
    }

    ghost function Values(): (c: Columns)
      requires Valid()
      reads this, Footprint()
      ensures c.Valid() && |c.e1| == count
    {
      Columns(e1[..count], n1[..count], e2[..count], n2[..count], status[..count])
    }

    /** The active points, in order. */
    ghost function Points(): seq<Gcp>
      requires Valid()
      reads this, Footprint()
    {
      Values().Active(count)
    }
  }

  method NumActive(cp: ControlPoints) returns (numactive: nat)
    requires cp.Valid()
    ensures numactive == |cp.Points()|
  {
    numactive := 0;
    for i := 0 to cp.count
      invariant numactive == |cp.Values().Active(i)|
    {
      if cp.status[i] > 0 {
        numactive := numactive + 1;
      }
    }
  }

  // ---------------------------------------------------------------------
  // As many points as terms.
  // ---------------------------------------------------------------------

  method PopulateRow(m: array2<real>, row: nat, e: real, n: real)
    requires row < m.Length0
    modifies m
    ensures Rows(m) == old(Rows(m))[row := Terms(m.Length1, e, n)]
  {
    for j := 0 to m.Length1
      invariant forall c :: 0 <= c < j ==> m[row, c] == Term(c + 1, e, n)
      invariant forall r, c :: 0 <= r < m.Length0 && 0 <= c < m.Length1 && r != row ==> m[r, c] == old(m[r, c])
    {
      m[row, j] := Term(j + 1, e, n);
    }
    forall r | 0 <= r < m.Length0
      ensures Rows(m)[r] == old(Rows(m))[row := Terms(m.Length1, e, n)][r]
    {
    }
  }

  /** Row, right-hand sides and targets agree for the first points. */
  ghost predicate Populated(m: Matrix, a: seq<real>, b: seq<real>, pts: seq<Gcp>, size: nat) {
    && |pts| <= |m| && |pts| <= |a| && |pts| <= |b|
    && forall p :: 0 <= p < |pts| ==>
         m[p] == Terms(size, pts[p].e1, pts[p].n1) && a[p] == pts[p].e2 && b[p] == pts[p].n2
  }

  lemma PopulatedAll(m: Matrix, a: seq<real>, b: seq<real>, pts: seq<Gcp>, size: nat)
    requires |m| == |a| == |b| == |pts| && Populated(m, a, b, pts, size)
    ensures m == TermRows(pts, size) && a == Eastings(pts) && b == Northings(pts)
  {
  }

  method ExactDet(cp: ControlPoints, m: array2<real>, a: array<real>, b: array<real>, E: array<real>, N: array<real>)
    returns (status: int)
    requires cp.Valid() && cp.Footprint() !! {m, a, b, E, N}
    requires a != b && E != N && E !in {a, b} && N !in {a, b}
    requires m.Length0 == m.Length1 == a.Length == b.Length <= E.Length && a.Length <= N.Length
    requires |cp.Points()| <= a.Length
    modifies m, a, b, E, N
    ensures status == if |cp.Points()| != a.Length then MINTERR
                      else if OnCurve(cp.Points(), a.Length) then MUNSOLVABLE else MSUCCESS
    ensures status != MSUCCESS ==> E[..] == old(E[..]) && N[..] == old(N[..])
    ensures status == MSUCCESS ==> ExactFit(cp.Points(), E[..a.Length], N[..a.Length])
    ensures status == MSUCCESS ==> BestFit(cp.Points(), E[..a.Length], N[..a.Length])
    ensures E[a.Length..] == old(E[a.Length..]) && N[a.Length..] == old(N[a.Length..])
  {
    hide OnCurve, ExactFit, BestFit, Singular, Solves;
    ghost var pts := cp.Points();
    var currow := Populate(cp, m, a, b);
    if currow != a.Length {
      return MINTERR;
    }
    PopulatedAll(Rows(m), a[..], b[..], pts, m.Length1);
    SquareDependent(Rows(m));
    OnCurveDependent(pts, a.Length);
    status := SolveMat(m, a, b, E, N);
    if status == MSUCCESS {
      ExactSolution(pts, E[..a.Length], N[..a.Length]);
    }
  }

  /** Enters the active points as rows of a system and counts them. */
  method Populate(cp: ControlPoints, m: array2<real>, a: array<real>, b: array<real>) returns (currow: nat)
    requires cp.Valid() && cp.Footprint() !! {m, a, b} && a != b
    requires m.Length0 == m.Length1 == a.Length == b.Length >= |cp.Points()|
    modifies m, a, b
    ensures currow == |cp.Points()|
    ensures Populated(Rows(m), a[..], b[..], cp.Points(), m.Length1)
  {
    ghost var c := cp.Values();
    currow := 0;
    for pntnow := 0 to cp.count
      invariant c == cp.Values()
      invariant currow == |c.Active(pntnow)| <= a.Length
      invariant Populated(Rows(m), a[..], b[..], c.Active(pntnow), m.Length1)
    {
      hide Populated, Columns.Active;
      c.ActiveNext(pntnow);
      c.ActiveGrows(pntnow + 1, cp.count);
      if cp.status[pntnow] > 0 {
        EnterPoint(m, a, b, currow, c.Active(pntnow), Gcp(cp.e1[pntnow], cp.n1[pntnow], cp.e2[pntnow], cp.n2[pntnow]));
        currow := currow + 1;
      }
    }
  }

  /** Enters one point. */
  method EnterPoint(m: array2<real>, a: array<real>, b: array<real>, row: nat, ghost pts: seq<Gcp>, p: Gcp)
    requires a != b && m.Length0 == m.Length1 == a.Length == b.Length && row == |pts| < a.Length
    requires Populated(Rows(m), a[..], b[..], pts, m.Length1)
    modifies m, a, b
    ensures Populated(Rows(m), a[..], b[..], pts + [p], m.Length1)
  {
    hide Populated;
    PopulatedNext(Rows(m), a[..], b[..], pts, p, m.Length1);
    PopulateRow(m, row, p.e1, p.n1);
    EnterTarget(a, row, p.e2);
    EnterTarget(b, row, p.n2);
  }

  method EnterTarget(a: array<real>, row: nat, x: real)
    requires row < a.Length
    modifies a
    ensures a[..] == old(a[..])[row := x]
  {
    a[row] := x;
  }

  lemma PopulatedNext(m: Matrix, a: seq<real>, b: seq<real>, pts: seq<Gcp>, p: Gcp, size: nat)
    requires Populated(m, a, b, pts, size) && |pts| < |m| == |a| == |b|
    ensures var k := |pts|;
            Populated(m[k := Terms(size, p.e1, p.n1)], a[k := p.e2], b[k := p.n2], pts + [p], size)
  {
  }

  lemma ExactSolution(pts: seq<Gcp>, E: seq<real>, N: seq<real>)
    requires |E| == |N| == |pts| && !OnCurve(pts, |E|)
    requires Solves(TermRows(pts, |E|), Eastings(pts), E) && Solves(TermRows(pts, |E|), Northings(pts), N)
    ensures ExactFit(pts, E, N) && BestFit(pts, E, N)
  {
    var ts := TermRows(pts, |E|);
    OnCurveDependent(pts, |E|);
    assert Dots(ts, E) == Eastings(pts) && Dots(ts, N) == Northings(pts);
    ExactIsBest(ts, Eastings(pts), E);
    ExactIsBest(ts, Northings(pts), N);
    forall p | 0 <= p < |pts|
      ensures var t := Terms(|E|, pts[p].e1, pts[p].n1); Dot(t, E) == pts[p].e2 && Dot(t, N) == pts[p].n2
    {
      assert Dots(ts, E)[p] == Dot(ts[p], E) && Dots(ts, N)[p] == Dot(ts[p], N);
    }
  }

  // ---------------------------------------------------------------------
  // More points than terms.
  // ---------------------------------------------------------------------

  /** The upper half of the normal equations of the points. */
  ghost predicate UpperHalf(m: Matrix, a: seq<real>, b: seq<real>, pts: seq<Gcp>) {
    var n := |m|;
    var ts := TermRows(pts, n);
    && IsSquare(m, n)
    && (forall i, j :: 0 <= i <= j < n ==> m[i][j] == Gram(ts, n)[i][j])
    && a == Comb(ts, Eastings(pts), n)
    && b == Comb(ts, Northings(pts), n)
  }

  method ClearUpper(m: array2<real>, a: array<real>, b: array<real>)
    requires a != b && m.Length0 == m.Length1 == a.Length == b.Length
    modifies m, a, b
    ensures UpperHalf(Rows(m), a[..], b[..], [])
  {
    for i := 0 to m.Length0
      invariant forall r, c :: 0 <= r < i && r <= c < m.Length1 ==> m[r, c] == 0.0
      invariant forall r :: 0 <= r < i ==> a[r] == 0.0 && b[r] == 0.0
    {
      for j := i to m.Length1
        invariant forall r, c :: 0 <= r < i && r <= c < m.Length1 ==> m[r, c] == 0.0
        invariant forall c :: i <= c < j ==> m[i, c] == 0.0
        invariant forall r :: 0 <= r < i ==> a[r] == 0.0 && b[r] == 0.0
      {
        m[i, j] := 0.0;
      }
      a[i], b[i] := 0.0, 0.0;
    }
    assert forall i :: 0 <= i < m.Length0 ==> Gram(TermRows([], m.Length0), m.Length0)[i] == Zeros(m.Length0);
  }

  method AddPoint(m: array2<real>, a: array<real>, b: array<real>, e1: real, n1: real, e2: real, n2: real)
    requires a != b && m.Length0 == m.Length1 == a.Length == b.Length
    modifies m, a, b
    ensures forall i, j :: 0 <= i <= j < m.Length0 ==>
              m[i, j] == old(m[i, j]) + Term(i + 1, e1, n1) * Term(j + 1, e1, n1)
    ensures forall i :: 0 <= i < a.Length ==> a[i] == old(a[i]) + e2 * Term(i + 1, e1, n1)
    ensures forall i :: 0 <= i < b.Length ==> b[i] == old(b[i]) + n2 * Term(i + 1, e1, n1)
  {
    hide Term;
    for i := 0 to m.Length0
      invariant forall r, c :: 0 <= r <= c < m.Length0 ==>
          m[r, c] == old(m[r, c]) + if r < i then Term(r + 1, e1, n1) * Term(c + 1, e1, n1) else 0.0
      invariant forall r :: 0 <= r < a.Length ==> a[r] == old(a[r]) + if r < i then e2 * Term(r + 1, e1, n1) else 0.0
      invariant forall r :: 0 <= r < b.Length ==> b[r] == old(b[r]) + if r < i then n2 * Term(r + 1, e1, n1) else 0.0
    {
      AddToRow(m, i, e1, n1);
      a[i] := a[i] + e2 * Term(i + 1, e1, n1);
      b[i] := b[i] + n2 * Term(i + 1, e1, n1);
    }
  }

  method AddToRow(m: array2<real>, i: nat, e1: real, n1: real)
    requires m.Length0 == m.Length1 && i < m.Length0
    modifies m
    ensures forall r, c :: 0 <= r < m.Length0 && 0 <= c < m.Length1 ==>
              m[r, c] == old(m[r, c]) + if r == i <= c then Term(r + 1, e1, n1) * Term(c + 1, e1, n1) else 0.0
  {
    hide Term;
    for j := i to m.Length1
      invariant forall r, c :: 0 <= r < m.Length0 && 0 <= c < m.Length1 ==>
          m[r, c] == old(m[r, c]) + if r == i <= c < j then Term(r + 1, e1, n1) * Term(c + 1, e1, n1) else 0.0
    {
      m[i, j] := m[i, j] + Term(i + 1, e1, n1) * Term(j + 1, e1, n1);
    }
  }

  lemma UpperHalfNext(m: Matrix, a: seq<real>, b: seq<real>, m': Matrix, a': seq<real>, b': seq<real>,
                      pts: seq<Gcp>, p: Gcp)
    requires UpperHalf(m, a, b, pts) && IsSquare(m', |m|) && |a'| == |b'| == |m|
    requires forall i, j :: 0 <= i <= j < |m| ==>
               m'[i][j] == m[i][j] + Term(i + 1, p.e1, p.n1) * Term(j + 1, p.e1, p.n1)
    requires forall i :: 0 <= i < |m| ==> a'[i] == a[i] + p.e2 * Term(i + 1, p.e1, p.n1)
    requires forall i :: 0 <= i < |m| ==> b'[i] == b[i] + p.n2 * Term(i + 1, p.e1, p.n1)
    ensures UpperHalf(m', a', b', pts + [p])
  {
    hide Term, Gram, Comb;
    var n := |m|;
    var ts, t := TermRows(pts, n), Terms(n, p.e1, p.n1);
    assert TermRows(pts + [p], n) == ts + [t];
    forall i, j | 0 <= i <= j < n
      ensures m'[i][j] == Gram(ts + [t], n)[i][j]
    {
      GramAppend(ts, t, n, i, j);
      assert m[i][j] == Gram(ts, n)[i][j];
    }
    CombAppend(ts, Eastings(pts), t, p.e2, n);
    CombAppend(ts, Northings(pts), t, p.n2, n);
    assert Eastings(pts + [p]) == Eastings(pts) + [p.e2];
    assert Northings(pts + [p]) == Northings(pts) + [p.n2];
    AddTerms(a, p.e2, p.e1, p.n1, a');
    AddTerms(b, p.n2, p.e1, p.n1, b');
  }

  lemma AddTerms(a: seq<real>, x: real, e: real, n: real, a': seq<real>)
    requires |a| == |a'| && forall i :: 0 <= i < |a| ==> a'[i] == a[i] + x * Term(i + 1, e, n)
    ensures a' == Add(a, x, Terms(|a|, e, n))
  {
    hide Term;
    forall i | 0 <= i < |a|
      ensures a'[i] == Add(a, x, Terms(|a|, e, n))[i]
    {
      assert Terms(|a|, e, n)[i] == Term(i + 1, e, n);
    }
  }

  /** Copies the upper half of the matrix to the other half. */
  method Mirror(m: array2<real>)
    requires m.Length0 == m.Length1
    modifies m
    ensures forall i, j :: 0 <= i < m.Length0 && 0 <= j < m.Length0 ==>
              m[i, j] == if j < i then old(m[j, i]) else old(m[i, j])
  {
    for i := 0 to m.Length0
      invariant forall r, c :: 0 <= r < m.Length0 && 0 <= c < m.Length0 ==>
          m[r, c] == if c < r < i then old(m[c, r]) else old(m[r, c])
    {
      for j := 0 to i
        invariant forall r, c :: 0 <= r < m.Length0 && 0 <= c < m.Length0 ==>
            m[r, c] == if c < r && (r < i || (r == i && c < j)) then old(m[c, r]) else old(m[r, c])
      {
        m[i, j] := m[j, i];
      }
    }
  }

  /** The entry of the upper half that belongs to row i and column j. */
  function UpperEntry(m: Matrix, i: nat, j: nat): real
    requires IsSquare(m, |m|) && i < |m| && j < |m|
  {
    if j < i then m[j][i] else m[i][j]
  }

  lemma MirroredIsGram(m: Matrix, a: seq<real>, b: seq<real>, m': Matrix, pts: seq<Gcp>)
    requires UpperHalf(m, a, b, pts) && IsSquare(m', |m|)
    requires forall i, j :: 0 <= i < |m| && 0 <= j < |m| ==> m'[i][j] == UpperEntry(m, i, j)
    ensures m' == Gram(TermRows(pts, |m|), |m|)
  {
    var n, g := |m|, Gram(TermRows(pts, |m|), |m|);
    hide UpperHalf, Gram;
    forall i, j | 0 <= i < n && 0 <= j < n
      ensures m'[i][j] == g[i][j]
    {
      if j < i {
        UpperHalfAt(m, a, b, pts, j, i);
        GramSymmetric(TermRows(pts, n), n, i, j);
      } else {
        UpperHalfAt(m, a, b, pts, i, j);
      }
    }
    SameMatrix(m', g, n);
  }

  lemma UpperHalfAt(m: Matrix, a: seq<real>, b: seq<real>, pts: seq<Gcp>, i: nat, j: nat)
    requires UpperHalf(m, a, b, pts) && i <= j < |m|
    ensures IsSquare(m, |m|) && m[i][j] == Gram(TermRows(pts, |m|), |m|)[i][j]
  {
  }

  lemma SameMatrix(m: Matrix, m': Matrix, n: nat)
    requires IsSquare(m, n) && IsSquare(m', n)
    requires forall i, j :: 0 <= i < n && 0 <= j < n ==> m[i][j] == m'[i][j]
    ensures m == m'
  {
    forall i | 0 <= i < n
      ensures m[i] == m'[i]
    {
      assert forall j :: 0 <= j < n ==> m[i][j] == m'[i][j];
    }
  }

  /** Adds one point to the upper half of the normal equations. */
  method AddActive(m: array2<real>, a: array<real>, b: array<real>, ghost pts: seq<Gcp>, p: Gcp)
    requires a != b && m.Length0 == m.Length1 == a.Length == b.Length && UpperHalf(Rows(m), a[..], b[..], pts)
    modifies m, a, b
    ensures UpperHalf(Rows(m), a[..], b[..], pts + [p])
  {
    hide UpperHalf, Term;
    ghost var m0, a0, b0 := Rows(m), a[..], b[..];
    AddPoint(m, a, b, p.e1, p.n1, p.e2, p.n2);
    UpperHalfNext(m0, a0, b0, Rows(m), a[..], b[..], pts, p);
  }

  /** Adds all active points to the upper half of the normal equations and counts them. */
  method SumPoints(cp: ControlPoints, m: array2<real>, a: array<real>, b: array<real>) returns (numactive: nat)
    requires cp.Valid() && cp.Footprint() !! {m, a, b} && a != b
    requires m.Length0 == m.Length1 == a.Length == b.Length
    modifies m, a, b
    ensures numactive == |cp.Points()|
    ensures UpperHalf(Rows(m), a[..], b[..], cp.Points())
  {
    hide UpperHalf, Term;
    ClearUpper(m, a, b);
    ghost var c := cp.Values();
    numactive := 0;
    for n := 0 to cp.count
      invariant c == cp.Values()
      invariant numactive == |c.Active(n)|
      invariant UpperHalf(Rows(m), a[..], b[..], c.Active(n))
    {
      hide Columns.Active;
      c.ActiveNext(n);
      if cp.status[n] > 0 {
        numactive := numactive + 1;
        AddActive(m, a, b, c.Active(n), Gcp(cp.e1[n], cp.n1[n], cp.e2[n], cp.n2[n]));
      }
    }
  }

  method CalcLs(cp: ControlPoints, m: array2<real>, a: array<real>, b: array<real>, E: array<real>, N: array<real>)
    returns (status: int)
    requires cp.Valid() && cp.Footprint() !! {m, a, b, E, N}
    requires a != b && E != N && E !in {a, b} && N !in {a, b}
    requires m.Length0 == m.Length1 == a.Length == b.Length <= E.Length && a.Length <= N.Length
    modifies m, a, b, E, N
    ensures status == if |cp.Points()| <= a.Length then MINTERR
                      else if OnCurve(cp.Points(), a.Length) then MUNSOLVABLE else MSUCCESS
    ensures status != MSUCCESS ==> E[..] == old(E[..]) && N[..] == old(N[..])
    ensures status == MSUCCESS ==> BestFit(cp.Points(), E[..a.Length], N[..a.Length])
    ensures E[a.Length..] == old(E[a.Length..]) && N[a.Length..] == old(N[a.Length..])
  {
    hide OnCurve, BestFit, Singular, Solves, UpperHalf;
    ghost var pts := cp.Points();
    var numactive := SumPoints(cp, m, a, b);
    if numactive <= a.Length {
      return MINTERR;
    }
    ghost var m0 := Rows(m);
    Mirror(m);
    MirroredIsGram(m0, a[..], b[..], Rows(m), pts);
    UpperSides(m0, a[..], b[..], pts);
    OnCurveDependent(pts, a.Length);
    GramSingular(TermRows(pts, a.Length), a.Length);
    status := SolveMat(m, a, b, E, N);
    if status == MSUCCESS {
      NormalSolution(pts, E[..a.Length], N[..a.Length]);
    }
  }

  lemma UpperSides(m: Matrix, a: seq<real>, b: seq<real>, pts: seq<Gcp>)
    requires UpperHalf(m, a, b, pts)
    ensures var ts := TermRows(pts, |m|); a == Comb(ts, Eastings(pts), |m|) && b == Comb(ts, Northings(pts), |m|)
  {
  }

  lemma NormalSolution(pts: seq<Gcp>, E: seq<real>, N: seq<real>)
    requires |E| == |N| && !OnCurve(pts, |E|)
    requires var ts := TermRows(pts, |E|);
             && Solves(Gram(ts, |E|), Comb(ts, Eastings(pts), |E|), E)
             && Solves(Gram(ts, |E|), Comb(ts, Northings(pts), |E|), N)
    ensures BestFit(pts, E, N)
  {
    hide Solves, Dependent;
    OnCurveDependent(pts, |E|);
    NormalIsBest(TermRows(pts, |E|), Eastings(pts), E);
    NormalIsBest(TermRows(pts, |E|), Northings(pts), N);
  }

  // ---------------------------------------------------------------------
  // The entry points.
  // ---------------------------------------------------------------------

  /** The number of terms of a polynomial, which is the least number of points that determine one. */
  function NumTerms(order: nat): nat {
    (order + 1) * (order + 2) / 2
  }

  /** The status of a fit through the points. */
  ghost function FitStatus(pts: seq<Gcp>, size: nat): int {
    if |pts| < size then MNPTERR else if OnCurve(pts, size) then MUNSOLVABLE else MSUCCESS
  }

  /** The coefficients are the best ones and, for as many points as terms, map every point to its target. */
  ghost predicate Fitted(pts: seq<Gcp>, E: seq<real>, N: seq<real>)
    requires |E| == |N|
  {
    BestFit(pts, E, N) && (|pts| == |E| ==> ExactFit(pts, E, N))
  }

  ghost predicate FittedPrefix(pts: seq<Gcp>, E: seq<real>, N: seq<real>, size: nat) {
    size <= |E| && size <= |N| && Fitted(pts, E[..size], N[..size])
  }

  method CalcCoef(cp: ControlPoints, E: array<real>, N: array<real>, order: nat) returns (status: int)
    requires cp.Valid() && cp.Footprint() !! {E, N} && E != N
    requires NumTerms(order) <= E.Length && NumTerms(order) <= N.Length
    modifies E, N
    ensures status == FitStatus(cp.Points(), NumTerms(order))
    ensures status != MSUCCESS ==> E[..] == old(E[..]) && N[..] == old(N[..])
    ensures status == MSUCCESS ==> FittedPrefix(cp.Points(), E[..], N[..], NumTerms(order))
    ensures E[NumTerms(order)..] == old(E[NumTerms(order)..]) && N[NumTerms(order)..] == old(N[NumTerms(order)..])
  {
    hide NumTerms, OnCurve, BestFit, ExactFit;
    var numactive := NumActive(cp);
    var n := NumTerms(order);
    if numactive < n {
      return MNPTERR;
    }
    var m := new real[n, n];
    var a, b := new real[n], new real[n];
    if numactive == n {
      status := ExactDet(cp, m, a, b, E, N);
    } else {
      status := CalcLs(cp, m, a, b, E, N);
    }
  }

  ghost predicate Separate(cp: ControlPoints, E12: array<real>, N12: array<real>, E21: array<real>, N21: array<real>)
    reads cp
  {
    && cp.Footprint() !! {E12, N12, E21, N21}
    && E12 !in {N12, E21, N21} && N12 !in {E21, N21} && E21 != N21
  }

  /** Switches the two coordinate systems. */
  method SwitchColumns(cp: ControlPoints)
    requires cp.Valid()
    modifies cp
    ensures cp.e1 == old(cp.e2) && cp.n1 == old(cp.n2) && cp.e2 == old(cp.e1) && cp.n2 == old(cp.n1)
    ensures cp.count == old(cp.count) && cp.status == old(cp.status)
    ensures cp.Footprint() == old(cp.Footprint()) && cp.Valid()
    ensures cp.Points() == Flip(old(cp.Points()))
  {
    hide Columns.Active;
    ghost var c := cp.Values();
    cp.e1, cp.e2 := cp.e2, cp.e1;
    cp.n1, cp.n2 := cp.n2, cp.n1;
    assert cp.Values() == c.Flipped();
    c.FlippedActive(cp.count);
  }

  /** What the fits in both directions say of the points: the first status that is no success, or the fits. */
  ghost predicate Georeferenced(pts: seq<Gcp>, order: int, status: int,
                                E12: seq<real>, N12: seq<real>, E21: seq<real>, N21: seq<real>) {
    if order < 1 || order > MAXORDER then status == MPARMERR else
    var size := NumTerms(order);
    if FitStatus(pts, size) != MSUCCESS then status == FitStatus(pts, size) else
    && FittedPrefix(pts, E12, N12, size)
    && status == FitStatus(Flip(pts), size)
    && (status == MSUCCESS ==> FittedPrefix(Flip(pts), E21, N21, size))
  }

  /** Fits polynomials in both directions; the columns are exchanged meanwhile and restored. */
  method ComputeGeorefEquations(cp: ControlPoints, E12: array<real>, N12: array<real>,
                                E21: array<real>, N21: array<real>, order: int)
    returns (status: int)
    requires cp.Valid() && Separate(cp, E12, N12, E21, N21)
    requires var size := NumTerms(MAXORDER);
             E12.Length >= size && N12.Length >= size && E21.Length >= size && N21.Length >= size
    modifies cp, E12, N12, E21, N21
    ensures cp.e1 == old(cp.e1) && cp.n1 == old(cp.n1) && cp.e2 == old(cp.e2) && cp.n2 == old(cp.n2)
    ensures cp.count == old(cp.count) && cp.status == old(cp.status)
    ensures Georeferenced(old(cp.Points()), order, status, E12[..], N12[..], E21[..], N21[..])
  {
    if order < 1 || order > MAXORDER {
      return MPARMERR;
    }
    OrderSize(order);
    hide NumTerms, FitStatus, FittedPrefix, ControlPoints.Points, ControlPoints.Footprint;
    status := CalcCoef(cp, E12, N12, order);
    if status == MSUCCESS {
      status := BackwardCoef(cp, E21, N21, order);
    }
  }

  /** Fits the polynomials that lead from the second coordinates back to the first ones. */
  method BackwardCoef(cp: ControlPoints, E: array<real>, N: array<real>, order: nat) returns (status: int)
    requires cp.Valid() && E !in cp.Footprint() && N !in cp.Footprint() && E != N
    requires NumTerms(order) <= E.Length && NumTerms(order) <= N.Length
    modifies cp, E, N
    ensures cp.e1 == old(cp.e1) && cp.n1 == old(cp.n1) && cp.e2 == old(cp.e2) && cp.n2 == old(cp.n2)
    ensures cp.count == old(cp.count) && cp.status == old(cp.status)
    ensures status == FitStatus(Flip(old(cp.Points())), NumTerms(order))
    ensures status == MSUCCESS ==> FittedPrefix(Flip(old(cp.Points())), E[..], N[..], NumTerms(order))
  {
    hide NumTerms, FitStatus, FittedPrefix, ControlPoints.Points;
    SwitchColumns(cp);
    ghost var pts := cp.Points();
    status := CalcCoef(cp, E, N, order);
    assert cp.Points() == pts;
    SwitchColumns(cp);
  }

  lemma OrderSize(order: nat)
    requires 1 <= order <= MAXORDER
    ensures NumTerms(order) <= NumTerms(MAXORDER)
  {
    assert order == 1 || order == 2 || order == 3;
  }

  /** The polynomial of an order with the given coefficients. */
  function Polynomial(e1: real, n1: real, E: seq<real>, order: nat): real
    requires 1 <= order <= MAXORDER && |E| >= NumTerms(order)
  {
    if order == 1 then
      E[0] + E[1] * e1 + E[2] * n1
    else if order == 2 then
      var e2, n2, en := e1 * e1, n1 * n1, e1 * n1;
      E[0] + E[1] * e1 + E[2] * n1 + E[3] * e2 + E[4] * en + E[5] * n2
    else
      var e2, en, n2 := e1 * e1, e1 * n1, n1 * n1;
      var e3, e2n, en2, n3 := e1 * e2, e2 * n1, e1 * n2, n1 * n2;
      E[0] + E[1] * e1 + E[2] * n1 + E[3] * e2 + E[4] * en + E[5] * n2 +
      E[6] * e3 + E[7] * e2n + E[8] * en2 + E[9] * n3
  }

  /** Transforms a point; orders that there are no polynomials of are a parameter error. */
  function Georef(e1: real, n1: real, E: seq<real>, N: seq<real>, order: int): (r: Option<(real, real)>)
    requires 1 <= order <= MAXORDER ==> |E| >= NumTerms(order) && |N| >= NumTerms(order)
  {
    if 1 <= order <= MAXORDER then Some((Polynomial(e1, n1, E, order), Polynomial(e1, n1, N, order))) else None
  }

  /** The first terms of a scalar product with the terms of a point. */
  ghost function Partial(E: seq<real>, e: real, n: real, k: nat): real
    requires k <= |E|
  {
    if k == 0 then 0.0 else Partial(E, e, n, k - 1) + E[k - 1] * Term(k, e, n)
  }

  lemma {:induction false} PartialIsDot(E: seq<real>, e: real, n: real, k: nat)
    requires k <= |E|
    ensures Partial(E, e, n, k) == Dot(Terms(k, e, n), E[..k])
  {
    if k == 0 {
    } else {
      hide Term;
      PartialIsDot(E, e, n, k - 1);
      assert Terms(k, e, n)[..k - 1] == Terms(k - 1, e, n);
      assert E[..k][..k - 1] == E[..k - 1];
    }
  }

  lemma PartialNext(E: seq<real>, e: real, n: real, k: nat)
    requires 0 < k <= |E|
    ensures Partial(E, e, n, k) == Partial(E, e, n, k - 1) + E[k - 1] * Term(k, e, n)
  {
  }

  lemma PartialIsLinear(e: real, n: real, E: seq<real>)
    requires |E| >= 3
    ensures Partial(E, e, n, 3) == E[0] + E[1] * e + E[2] * n
  {
    PartialNext(E, e, n, 1);
    PartialNext(E, e, n, 2);
    PartialNext(E, e, n, 3);
  }

  lemma PartialIsQuadratic(e: real, n: real, E: seq<real>)
    requires |E| >= 6
    ensures Partial(E, e, n, 6) == Partial(E, e, n, 3) + E[3] * (e * e) + E[4] * (e * n) + E[5] * (n * n)
  {
    hide Partial;
    PartialNext(E, e, n, 4);
    PartialNext(E, e, n, 5);
    PartialNext(E, e, n, 6);
  }

  lemma PartialIsCubic(e: real, n: real, E: seq<real>)
    requires |E| >= 10
    ensures Partial(E, e, n, 10) == Partial(E, e, n, 6)
                                    + E[6] * (e * (e * e)) + E[7] * (e * e * n) + E[8] * (e * (n * n)) +
                                        E[9] * (n * (n * n))
  {
    hide Partial;
    Cubes(e, n);
    PartialNext(E, e, n, 7);
    PartialNext(E, e, n, 8);
    PartialNext(E, e, n, 9);
    PartialNext(E, e, n, 10);
  }

  lemma Cubes(e: real, n: real)
    ensures e * (e * e) == Term(7, e, n) && e * e * n == Term(8, e, n)
    ensures e * (n * n) == Term(9, e, n) && n * (n * n) == Term(10, e, n)
  {
  }

  lemma PartialIsPolynomial(e: real, n: real, E: seq<real>, order: nat)
    requires 1 <= order <= MAXORDER && |E| >= NumTerms(order)
    ensures Partial(E, e, n, NumTerms(order)) == Polynomial(e, n, E, order)
  {
    hide Partial, Term;
    PartialIsLinear(e, n, E);
    if order >= 2 {
      PartialIsQuadratic(e, n, E);
    }
    if order == 3 {
      PartialIsCubic(e, n, E);
    }
  }

  /** The polynomial is the scalar product of the coefficients and the terms that the fit uses. */
  lemma PolynomialIsDot(e: real, n: real, E: seq<real>, order: nat)
    requires 1 <= order <= MAXORDER && |E| >= NumTerms(order)
    ensures var t := Terms(NumTerms(order), e, n); Polynomial(e, n, E, order) == Dot(t, E[..|t|])
  {
    PartialIsDot(E, e, n, NumTerms(order));
    PartialIsPolynomial(e, n, E, order);
  }

  function Power(x: real, k: nat): real {
    if k == 0 then 1.0 else Power(x, k - 1) * x
  }

  /** The number of monomials of a lower degree. */
  function OfLowerDegree(d: nat): nat {
    if d == 0 then 0 else OfLowerDegree(d - 1) + d
  }

  /** The terms of an order are the monomials of at most that degree, each once, by degree and by the power of n. */
  lemma TermsAreMonomials(order: nat, i: nat, j: nat, e: real, n: real)
    requires 1 <= order <= MAXORDER && i + j <= order
    ensures var k, t := OfLowerDegree(i + j) + j, Terms(NumTerms(order), e, n);
            k < |t| == OfLowerDegree(order + 1) && t[k] == Times(Power(e, i), Power(n, j))
  {
    TermCount(order, i + j);
    MonomialTerm(i, j, e, n);
    hide OfLowerDegree, Power, Term, NumTerms, Times;
  }

  lemma TermCount(order: nat, d: nat)
    requires 1 <= order <= MAXORDER && d <= order
    ensures NumTerms(order) == OfLowerDegree(order + 1) && OfLowerDegree(d) + d < NumTerms(order)
  {
    assert OfLowerDegree(1) == 1 && OfLowerDegree(2) == 3 && OfLowerDegree(3) == 6 && OfLowerDegree(4) == 10;
    assert order == 1 || order == 2 || order == 3;
    assert d == 0 || d == 1 || d == 2 || d == 3;
  }

  lemma MonomialTerm(i: nat, j: nat, e: real, n: real)
    requires i + j <= 3
    ensures Term(OfLowerDegree(i + j) + j + 1, e, n) == Times(Power(e, i), Power(n, j))
  {
    if j == 0 {
      MonomialOfE(i, e, n);
    } else if j == 1 {
      MonomialOfEN(i, e, n);
    } else if j == 2 {
      MonomialOfENN(i, e, n);
    } else {
      MonomialOfNNN(e, n);
    }
    hide OfLowerDegree, Power, Term, Times;
  }

  lemma MonomialOfE(i: nat, e: real, n: real)
    requires i <= 3
    ensures Term(OfLowerDegree(i) + 1, e, n) == Times(Power(e, i), Power(n, 0))
  {
    Powers(e);
    Powers(n);
    hide Power;
    assert OfLowerDegree(1) == 1 && OfLowerDegree(2) == 3 && OfLowerDegree(3) == 6;
    assert i == 0 || i == 1 || i == 2 || i == 3;
  }

  lemma MonomialOfEN(i: nat, e: real, n: real)
    requires i <= 2
    ensures Term(OfLowerDegree(i + 1) + 2, e, n) == Times(Power(e, i), Power(n, 1))
  {
    Powers(e);
    Powers(n);
    hide Power;
    assert OfLowerDegree(1) == 1 && OfLowerDegree(2) == 3 && OfLowerDegree(3) == 6;
    assert i == 0 || i == 1 || i == 2;
  }

  lemma MonomialOfENN(i: nat, e: real, n: real)
    requires i <= 1
    ensures Term(OfLowerDegree(i + 2) + 3, e, n) == Times(Power(e, i), Power(n, 2))
  {
    Powers(e);
    Powers(n);
    hide Power;
    assert OfLowerDegree(2) == 3 && OfLowerDegree(3) == 6;
    assert i == 0 || i == 1;
    assert e * (n * n) == e * n * n;
  }

  lemma MonomialOfNNN(e: real, n: real)
    ensures Term(OfLowerDegree(3) + 4, e, n) == Times(Power(e, 0), Power(n, 3))
  {
    Powers(e);
    Powers(n);
    hide Power;
    assert OfLowerDegree(2) == 3 && OfLowerDegree(3) == 6;
  }

  lemma Powers(x: real)
    ensures Power(x, 0) == 1.0 && Power(x, 1) == x && Power(x, 2) == x * x && Power(x, 3) == x * x * x
  {
    assert Power(x, 2) == Power(x, 1) * x;
    assert Power(x, 3) == Power(x, 2) * x;
  }

  /** With as few points as there are terms, a fit transforms every point to its target. */
  lemma ExactTransform(pts: seq<Gcp>, E: seq<real>, N: seq<real>, order: nat, p: nat)
    requires 1 <= order <= MAXORDER && |E| >= |pts| && |N| >= |pts| && |pts| == NumTerms(order) && p < |pts|
    requires FittedPrefix(pts, E, N, |pts|)
    ensures Georef(pts[p].e1, pts[p].n1, E, N, order) == Some((pts[p].e2, pts[p].n2))
  {
    PolynomialIsDot(pts[p].e1, pts[p].n1, E, order);
    PolynomialIsDot(pts[p].e1, pts[p].n1, N, order);
  }

  function Squared(x: real): real {
    x * x
  }

  /** The sum of the squared differences between the polynomial at the points and the targets. */
  ghost function FitError(pts: seq<Gcp>, targets: seq<real>, C: seq<real>, order: nat): real
    requires 1 <= order <= MAXORDER && |C| >= NumTerms(order) && |targets| == |pts|
  {
    if pts == [] then 0.0 else
    var k := |pts| - 1;
    FitError(pts[..k], targets[..k], C, order) + Squared(Polynomial(pts[k].e1, pts[k].n1, C, order) - targets[k])
  }

  lemma {:induction false} FitErrorIsSquared(pts: seq<Gcp>, targets: seq<real>, C: seq<real>, order: nat)
    requires 1 <= order <= MAXORDER && |C| == NumTerms(order) && |targets| == |pts|
    ensures FitError(pts, targets, C, order) == SquaredError(TermRows(pts, |C|), targets, C)
  {
    hide Polynomial, Dot;
    if pts == [] {
      DotZero([], []);
    } else {
      var ts, k := TermRows(pts, |C|), |pts| - 1;
      FitErrorIsSquared(pts[..k], targets[..k], C, order);
      PolynomialIsDot(pts[k].e1, pts[k].n1, C, order);
      assert C[..|C|] == C;
      assert ts[..k] == TermRows(pts[..k], |C|);
      hide SquaredError, Squared;
      SquaredErrorNext(ts, targets, C, Polynomial(pts[k].e1, pts[k].n1, C, order) - targets[k]);
    }
  }

  lemma SquaredErrorNext(ts: Matrix, a: seq<real>, x: seq<real>, d: real)
    requires |a| == |ts| > 0 && Wide(ts, |x|) && d == Dot(ts[|ts| - 1], x) - a[|ts| - 1]
    ensures SquaredError(ts, a, x) == SquaredError(ts[..|ts| - 1], a[..|ts| - 1], x) + Squared(d)
  {
    hide Dot, Times, Squared, Residual;
    ResidualFront(ts, a, x);
    DotFront(Residual(ts, a, x), Residual(ts, a, x));
    SquaredTimes(d);
  }

  lemma SquaredTimes(d: real)
    ensures Squared(d) == Times(d, d)
  {
  }

  lemma ResidualFront(ts: Matrix, a: seq<real>, x: seq<real>)
    requires |a| == |ts| > 0 && Wide(ts, |x|)
    ensures var k := |ts| - 1;
            var r := Residual(ts, a, x);
            r[..k] == Residual(ts[..k], a[..k], x) && r[k] == Dot(ts[k], x) - a[k]
  {
    hide Dot, Add;
    DotsFront(ts, x);
    AddFront(Dots(ts, x), -1.0, a);
  }

  /** Other coefficients transform the points with a greater sum of squared errors than those of a fit. */
  lemma FitIsOptimal(pts: seq<Gcp>, E: seq<real>, N: seq<real>, other: seq<real>, order: nat)
    requires 1 <= order <= MAXORDER && |E| == |N| == |other| == NumTerms(order)
    requires Fitted(pts, E, N)
    ensures other != E ==> FitError(pts, Eastings(pts), E, order) < FitError(pts, Eastings(pts), other, order)
    ensures other != N ==> FitError(pts, Northings(pts), N, order) < FitError(pts, Northings(pts), other, order)
  {
    hide SquaredError;
    FitErrorIsSquared(pts, Eastings(pts), E, order);
    FitErrorIsSquared(pts, Eastings(pts), other, order);
    FitErrorIsSquared(pts, Northings(pts), N, order);
    FitErrorIsSquared(pts, Northings(pts), other, order);
  }
}

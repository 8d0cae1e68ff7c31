/** Real vectors, systems of linear equations and least squares. */
module LinearSystems {
  import opened Numbers

  ghost function Dot(u: seq<real>, v: seq<real>): real
    requires |u| == |v|
  {
    if u == [] then 0.0 else Dot(u[..|u| - 1], v[..|v| - 1]) + Times(u[|u| - 1], v[|v| - 1])
  }

  /** u + c * v. */
  ghost function Add(u: seq<real>, c: real, v: seq<real>): (w: seq<real>)
    requires |u| == |v|
    ensures |w| == |u| && forall k :: 0 <= k < |u| ==> w[k] == u[k] + Times(c, v[k])
  {
    seq(|u|, k requires 0 <= k < |u| => u[k] + Times(c, v[k]))
  }

  ghost function Zeros(n: nat): (z: seq<real>)
    ensures |z| == n && forall k :: 0 <= k < n ==> z[k] == 0.0
  {
    seq(n, _ => 0.0)
  }

  ghost predicate NonZero(v: seq<real>) {
    exists k :: 0 <= k < |v| && v[k] != 0.0
  }

  lemma DotAdd(u: seq<real>, c: real, v: seq<real>, x: seq<real>)
    requires |u| == |v| == |x|
    ensures Dot(Add(u, c, v), x) == Dot(u, x) + c * Dot(v, x)
  {
    hide Dot, Add;
    DotAddTimes(u, c, v, x);
  }

  lemma {:induction false} DotAddTimes(u: seq<real>, c: real, v: seq<real>, x: seq<real>)
    requires |u| == |v| == |x|
    ensures Dot(Add(u, c, v), x) == Dot(u, x) + Times(c, Dot(v, x))
  {
    hide Dot, Times;
    if u == [] {
      NothingAdded(u, c, v, x);
    } else {
      var n := |u| - 1;
      AddFront(u, c, v);
      DotAddTimes(u[..n], c, v[..n], x[..n]);
      DotFront(u, x);
      DotFront(v, x);
      DotFront(Add(u, c, v), x);
      Distribute(c, u[n], v[n], x[n], Dot(v[..n], x[..n]));
    }
  }

  lemma NothingAdded(u: seq<real>, c: real, v: seq<real>, x: seq<real>)
    requires u == v == x == []
    ensures Dot(Add(u, c, v), x) == Dot(u, x) + Times(c, Dot(v, x))
  {
  }

  lemma Distribute(c: real, u: real, v: real, x: real, d: real)
    ensures Times(u + Times(c, v), x) == Times(u, x) + Times(c, Times(v, x))
    ensures Times(c, d + Times(v, x)) == Times(c, d) + Times(c, Times(v, x))
  {
  }

  lemma DotFront(u: seq<real>, x: seq<real>)
    requires |u| == |x| > 0
    ensures Dot(u, x) == Dot(u[..|u| - 1], x[..|x| - 1]) + Times(u[|u| - 1], x[|x| - 1])
  {
    hide Times;
  }

  lemma AddFront(u: seq<real>, c: real, v: seq<real>)
    requires |u| == |v| > 0
    ensures Add(u, c, v)[..|u| - 1] == Add(u[..|u| - 1], c, v[..|v| - 1])
    ensures Add(u, c, v)[|u| - 1] == u[|u| - 1] + Times(c, v[|v| - 1])
  {
    hide Times;
    var n := |u| - 1;
    forall k | 0 <= k < n
      ensures Add(u, c, v)[..n][k] == Add(u[..n], c, v[..n])[k]
    {
      assert Add(u, c, v)[k] == u[k] + Times(c, v[k]);
    }
  }

  lemma {:induction false} DotSymmetric(u: seq<real>, v: seq<real>)
    requires |u| == |v|
    ensures Dot(u, v) == Dot(v, u)
  {
    if u != [] {
      DotSymmetric(u[..|u| - 1], v[..|v| - 1]);
    }
  }

  lemma {:induction false} DotZero(u: seq<real>, v: seq<real>)
    requires |u| == |v| && forall k :: 0 <= k < |u| ==> u[k] == 0.0
    ensures Dot(u, v) == 0.0
  {
    if u != [] {
      DotZero(u[..|u| - 1], v[..|v| - 1]);
    }
  }

  /** The products outside keep are zero. */
  ghost predicate OnlyAt(u: seq<real>, v: seq<real>, keep: set<nat>)
    requires |u| == |v|
  {
    forall k :: 0 <= k < |u| && k !in keep ==> u[k] * v[k] == 0.0
  }

  lemma FrontOnlyAt(u: seq<real>, v: seq<real>, keep: set<nat>)
    requires |u| == |v| > 0 && OnlyAt(u, v, keep)
    ensures OnlyAt(u[..|u| - 1], v[..|v| - 1], keep)
    ensures |u| - 1 !in keep ==> u[|u| - 1] * v[|v| - 1] == 0.0
  {
  }

  lemma OnlyAtFewer(u: seq<real>, v: seq<real>, keep: set<nat>, k: nat)
    requires |u| == |v| <= k && OnlyAt(u, v, keep)
    ensures OnlyAt(u, v, keep - {k})
  {
  }

  /** Only the products at p and q are not zero. */
  lemma {:induction false} DotSparse(u: seq<real>, v: seq<real>, p: nat, q: nat)
    requires |u| == |v| && p < q < |u| && OnlyAt(u, v, {p, q})
    ensures Dot(u, v) == u[p] * v[p] + u[q] * v[q]
  {
    hide OnlyAt;
    var n := |u| - 1;
    FrontOnlyAt(u, v, {p, q});
    if q < n {
      DotSparse(u[..n], v[..n], p, q);
    } else {
      OnlyAtFewer(u[..n], v[..n], {p, q}, q);
      assert {p, q} - {q} == {p};
      DotSparseOne(u[..n], v[..n], p);
    }
  }

  lemma {:induction false} DotSparseOne(u: seq<real>, v: seq<real>, p: nat)
    requires |u| == |v| && p < |u| && OnlyAt(u, v, {p})
    ensures Dot(u, v) == u[p] * v[p]
  {
    hide OnlyAt;
    var n := |u| - 1;
    FrontOnlyAt(u, v, {p});
    if p < n {
      DotSparseOne(u[..n], v[..n], p);
    } else {
      OnlyAtFewer(u[..n], v[..n], {p}, p);
      assert {p} - {p} == {};
      DotAllZero(u[..n], v[..n]);
    }
  }

  lemma {:induction false} DotAllZero(u: seq<real>, v: seq<real>)
    requires |u| == |v| && OnlyAt(u, v, {})
    ensures Dot(u, v) == 0.0
  {
    hide OnlyAt;
    if u != [] {
      FrontOnlyAt(u, v, {});
      DotAllZero(u[..|u| - 1], v[..|v| - 1]);
    }
  }

  lemma {:induction false} SquaresPositive(u: seq<real>)
    ensures Dot(u, u) >= 0.0
    ensures Dot(u, u) == 0.0 ==> forall k :: 0 <= k < |u| ==> u[k] == 0.0
  {
    if u != [] {
      SquaresPositive(u[..|u| - 1]);
      Square(u[|u| - 1]);
    }
  }

  lemma Positive(x: real, y: real)
    requires x > 0.0 && y > 0.0
    ensures x * y > 0.0
  {
  }

  lemma Square(x: real)
    ensures x * x >= 0.0 && (x * x == 0.0 ==> x == 0.0)
  {
    if x != 0.0 && x * x == 0.0 {
      Product(x, x);
    }
  }

  // ---------------------------------------------------------------------
  // Systems and the row operations on them.
  // ---------------------------------------------------------------------

  type Matrix = seq<seq<real>>

  ghost predicate IsSquare(m: Matrix, n: nat) {
    |m| == n && forall i :: 0 <= i < n ==> |m[i]| == n
  }

  ghost predicate Solves(m: Matrix, a: seq<real>, x: seq<real>)
    requires |a| == |m| == |x| && IsSquare(m, |m|)
  {
    forall i :: 0 <= i < |m| ==> Dot(m[i], x) == a[i]
  }

  /** The same vectors solve both systems. */
  ghost predicate Equivalent(m: Matrix, a: seq<real>, m': Matrix, a': seq<real>)
    requires |a| == |m| == |m'| == |a'| && IsSquare(m, |m|) && IsSquare(m', |m|)
  {
    forall x :: |x| == |m| ==> (Solves(m, a, x) <==> Solves(m', a', x))
  }

  /** Some nonzero vector is mapped to zero. */
  ghost predicate Singular(m: Matrix)
    requires IsSquare(m, |m|)
  {
    exists x :: |x| == |m| && NonZero(x) && Solves(m, Zeros(|m|), x)
  }

  ghost function Swap<T>(s: seq<T>, i: nat, j: nat): (r: seq<T>)
    requires i < |s| && j < |s|
    ensures |r| == |s|
  {
    s[i := s[j]][j := s[i]]
  }

  lemma SwapEquivalent(m: Matrix, a: seq<real>, i: nat, j: nat)
    requires |a| == |m| && IsSquare(m, |m|) && i < |m| && j < |m|
    ensures IsSquare(Swap(m, i, j), |m|) && Equivalent(m, a, Swap(m, i, j), Swap(a, i, j))
  {
    var m', a' := Swap(m, i, j), Swap(a, i, j);
    forall x | |x| == |m|
      ensures Solves(m, a, x) <==> Solves(m', a', x)
    {
      if Solves(m', a', x) {
        forall k | 0 <= k < |m|
          ensures Dot(m[k], x) == a[k]
        {
          var k' := if k == i then j else if k == j then i else k;
          assert Dot(m'[k'], x) == a'[k'];
        }
      }
    }
  }

  /** Row r with c times row i added to it. */
  ghost function AddRow(m: Matrix, r: nat, c: real, i: nat): (m': Matrix)
    requires IsSquare(m, |m|) && r < |m| && i < |m|
    ensures IsSquare(m', |m|)
  {
    m[r := Add(m[r], c, m[i])]
  }

  /** Entry r with c times entry i added to it. */
  ghost function AddEntry(a: seq<real>, r: nat, c: real, i: nat): (a': seq<real>)
    requires r < |a| && i < |a|
    ensures |a'| == |a|
  {
    a[r := a[r] + Times(c, a[i])]
  }

  lemma AddRowEquivalent(m: Matrix, a: seq<real>, r: nat, c: real, i: nat)
    requires |a| == |m| && IsSquare(m, |m|) && r < |m| && i < |m| && r != i
    ensures Equivalent(m, a, AddRow(m, r, c, i), AddEntry(a, r, c, i))
  {
    hide Dot, Times;
    var m', a' := AddRow(m, r, c, i), AddEntry(a, r, c, i);
    forall x | |x| == |m|
      ensures Solves(m, a, x) <==> Solves(m', a', x)
    {
      DotAddTimes(m[r], c, m[i], x);
      if Solves(m, a, x) {
        assert Dot(m[r], x) == a[r] && Dot(m[i], x) == a[i];
      }
      if Solves(m', a', x) {
        assert Dot(m'[r], x) == a'[r] && Dot(m'[i], x) == a'[i];
        forall k | 0 <= k < |m|
          ensures Dot(m[k], x) == a[k]
        {
          if k != r {
            assert Dot(m'[k], x) == a'[k];
          }
        }
      }
    }
  }

  lemma EquivalentTrans(m: Matrix, a: seq<real>, m': Matrix, a': seq<real>, m'': Matrix, a'': seq<real>)
    requires |a| == |m| == |m'| == |a'| == |m''| == |a''|
    requires IsSquare(m, |m|) && IsSquare(m', |m|) && IsSquare(m'', |m|)
    requires Equivalent(m, a, m', a') && Equivalent(m', a', m'', a'')
    ensures Equivalent(m, a, m'', a'')
  {
  }

  /** The first i columns are those of a diagonal matrix without zeros on the diagonal. */
  ghost predicate DiagonalUpTo(m: Matrix, i: nat)
    requires IsSquare(m, |m|) && i <= |m|
  {
    && (forall c :: 0 <= c < i ==> m[c][c] != 0.0)
    && (forall r, c :: 0 <= r < |m| && 0 <= c < i && r != c ==> m[r][c] == 0.0)
  }

  /** The vector that shows a matrix to be singular when column i has no pivot left. */
  ghost function Kernel(m: Matrix, i: nat): (v: seq<real>)
    requires IsSquare(m, |m|) && i < |m| && DiagonalUpTo(m, i)
    ensures |v| == |m|
  {
    seq(|m|, c requires 0 <= c < |m| => if c < i then -m[c][i] / m[c][c] else if c == i then 1.0 else 0.0)
  }

  lemma NoPivotSingular(m: Matrix, i: nat)
    requires IsSquare(m, |m|) && i < |m| && DiagonalUpTo(m, i)
    requires forall r :: i <= r < |m| ==> m[r][i] == 0.0
    ensures Singular(m)
  {
    var v := Kernel(m, i);
    assert v[i] == 1.0;
    forall r | 0 <= r < |m|
      ensures Dot(m[r], v) == Zeros(|m|)[r]
    {
      KernelRow(m, i, r);
    }
    assert Solves(m, Zeros(|m|), v);
  }

  lemma KernelRow(m: Matrix, i: nat, r: nat)
    requires IsSquare(m, |m|) && i < |m| && r < |m| && DiagonalUpTo(m, i)
    requires r >= i ==> m[r][i] == 0.0
    ensures Dot(m[r], Kernel(m, i)) == 0.0
  {
    var v := Kernel(m, i);
    KernelSparse(m, i, r);
    hide OnlyAt, DiagonalUpTo, Kernel, Dot;
    if r < i {
      DotSparse(m[r], v, r, i);
      Cancel(m[r][r], m[r][i], v[r], v[i]);
    } else {
      DotAllZero(m[r], v);
    }
  }

  lemma KernelSparse(m: Matrix, i: nat, r: nat)
    requires IsSquare(m, |m|) && i < |m| && r < |m| && DiagonalUpTo(m, i)
    requires r >= i ==> m[r][i] == 0.0
    ensures OnlyAt(m[r], Kernel(m, i), if r < i then {r, i} else {})
    ensures r < i ==> m[r][r] != 0.0 && Kernel(m, i)[r] == -m[r][i] / m[r][r]
    ensures Kernel(m, i)[i] == 1.0
  {
    var v := Kernel(m, i);
    forall k | 0 <= k < |m| && k !in (if r < i then {r, i} else {})
      ensures m[r][k] * v[k] == 0.0
    {
      if k < i {
        assert m[r][k] == 0.0;
      } else if k == i {
        assert m[r][k] == 0.0;
      } else {
        assert v[k] == 0.0;
      }
      ZeroFactor(m[r][k], v[k]);
    }
  }

  lemma ZeroFactor(x: real, y: real)
    requires x == 0.0 || y == 0.0
    ensures x * y == 0.0
  {
  }

  lemma Cancel(d: real, x: real, v: real, w: real)
    requires d != 0.0 && v == -x / d && w == 1.0
    ensures d * v + x * w == 0.0
  {
  }

  /** A diagonal system has exactly one solution. */
  lemma DiagonalSolution(m: Matrix, a: seq<real>, x: seq<real>)
    requires IsSquare(m, |m|) && |a| == |m| == |x| && DiagonalUpTo(m, |m|)
    ensures Solves(m, a, x) <==> forall i :: 0 <= i < |m| ==> x[i] == a[i] / m[i][i]
  {
    forall i | 0 <= i < |m|
      ensures Dot(m[i], x) == a[i] <==> x[i] == a[i] / m[i][i]
    {
      assert OnlyAt(m[i], x, {i}) by {
        forall k | 0 <= k < |m| && k !in {i}
          ensures m[i][k] * x[k] == 0.0
        {
          assert m[i][k] == 0.0;
        }
      }
      DotSparseOne(m[i], x, i);
      Quotient(m[i][i], x[i], a[i]);
    }
  }

  lemma Quotient(d: real, x: real, a: real)
    requires d != 0.0
    ensures d * x == a <==> x == a / d
  {
  }

  /** What is equivalent to a diagonal system is not singular. */
  lemma DiagonalRegular(m0: Matrix, m: Matrix)
    requires |m| == |m0| && IsSquare(m0, |m0|) && IsSquare(m, |m|) && DiagonalUpTo(m, |m|)
    requires Equivalent(m0, Zeros(|m|), m, Zeros(|m|))
    ensures !Singular(m0)
  {
    forall x | |x| == |m0| && Solves(m0, Zeros(|m0|), x)
      ensures !NonZero(x)
    {
      DiagonalZero(m, x);
    }
  }

  lemma DiagonalZero(m: Matrix, x: seq<real>)
    requires IsSquare(m, |m|) && |m| == |x| && DiagonalUpTo(m, |m|) && Solves(m, Zeros(|m|), x)
    ensures !NonZero(x)
  {
    DiagonalSolution(m, Zeros(|m|), x);
    forall i | 0 <= i < |m|
      ensures x[i] == 0.0
    {
      Quotient(m[i][i], x[i], 0.0);
      Product(m[i][i], x[i]);
    }
  }

  lemma Product(d: real, x: real)
    requires d != 0.0 && d * x == 0.0
    ensures x == 0.0
  {
    if x != 0.0 {
      Positive(if d > 0.0 then d else -d, if x > 0.0 then x else -x);
    }
  }

  /** The system of a regular matrix has at most one solution. */
  lemma RegularUnique(m: Matrix, a: seq<real>, x: seq<real>, y: seq<real>)
    requires IsSquare(m, |m|) && |a| == |m| == |x| == |y| && !Singular(m)
    requires Solves(m, a, x) && Solves(m, a, y)
    ensures x == y
  {
    var d := Add(x, -1.0, y);
    forall i | 0 <= i < |m|
      ensures Dot(m[i], d) == Zeros(|m|)[i]
    {
      DotSymmetric(m[i], d);
      DotAdd(x, -1.0, y, m[i]);
      DotSymmetric(m[i], x);
      DotSymmetric(m[i], y);
    }
    assert Solves(m, Zeros(|m|), d);
    assert !NonZero(d);
    forall k | 0 <= k < |x|
      ensures x[k] == y[k]
    {
      assert d[k] == x[k] + -1.0 * y[k];
    }
  }

  // ---------------------------------------------------------------------
  // Reduction of a matrix together with two right-hand sides.
  // ---------------------------------------------------------------------

  /** A matrix and the two columns its rows belong to. */
  datatype System = System(m: Matrix, a: seq<real>, b: seq<real>) {
    ghost predicate Valid() {
      IsSquare(m, |m|) && |a| == |m| && |b| == |m|
    }

    ghost function Swapped(i: nat, j: nat): (s: System)
      requires Valid() && i < |m| && j < |m|
      ensures s.Valid() && |s.m| == |m|
    {
      System(Swap(m, i, j), Swap(a, i, j), Swap(b, i, j))
    }

    ghost function RowAdded(r: nat, c: real, i: nat): (s: System)
      requires Valid() && r < |m| && i < |m|
      ensures s.Valid() && |s.m| == |m|
    {
      System(AddRow(m, r, c, i), AddEntry(a, r, c, i), AddEntry(b, r, c, i))
    }

    /** Both systems, and the homogeneous one, keep their solutions. */
    ghost predicate ReducesTo(s: System)
      requires Valid() && s.Valid()
    {
      && |s.m| == |m|
      && Equivalent(m, a, s.m, s.a)
      && Equivalent(m, b, s.m, s.b)
      && Equivalent(m, Zeros(|m|), s.m, Zeros(|m|))
    }

    lemma ReduceTrans(s: System, t: System)
      requires Valid() && s.Valid() && t.Valid() && ReducesTo(s) && s.ReducesTo(t)
      ensures ReducesTo(t)
    {
      hide Equivalent;
      EquivalentTrans(m, a, s.m, s.a, t.m, t.a);
      EquivalentTrans(m, b, s.m, s.b, t.m, t.b);
      EquivalentTrans(m, Zeros(|m|), s.m, Zeros(|m|), t.m, Zeros(|m|));
    }

    lemma ReduceSelf()
      requires Valid()
      ensures ReducesTo(this)
    {
    }

    lemma ReducesSingular(s: System)
      requires Valid() && s.Valid() && ReducesTo(s)
      ensures Singular(m) <==> Singular(s.m)
    {
    }

    lemma ReducesSolution(s: System, x: seq<real>, y: seq<real>)
      requires Valid() && s.Valid() && ReducesTo(s) && |x| == |m| == |y|
      requires Solves(s.m, s.a, x) && Solves(s.m, s.b, y)
      ensures Solves(m, a, x) && Solves(m, b, y)
    {
    }

    lemma SwappedReduces(i: nat, j: nat)
      requires Valid() && i < |m| && j < |m|
      ensures ReducesTo(Swapped(i, j))
    {
      hide Equivalent;
      SwapEquivalent(m, a, i, j);
      SwapEquivalent(m, b, i, j);
      SwapEquivalent(m, Zeros(|m|), i, j);
      assert Swap(Zeros(|m|), i, j) == Zeros(|m|);
    }

    lemma RowAddedReduces(r: nat, c: real, i: nat)
      requires Valid() && r < |m| && i < |m| && r != i
      ensures ReducesTo(RowAdded(r, c, i))
    {
      hide Equivalent, AddRow, AddEntry;
      AddRowEquivalent(m, a, r, c, i);
      AddRowEquivalent(m, b, r, c, i);
      AddRowEquivalent(m, Zeros(|m|), r, c, i);
      ZerosAddEntry(|m|, r, c, i);
    }
  }

  lemma ZerosAddEntry(n: nat, r: nat, c: real, i: nat)
    requires r < n && i < n
    ensures AddEntry(Zeros(n), r, c, i) == Zeros(n)
  {
    ZeroFactor(c, Zeros(n)[i]);
  }
}

/** Least squares by the normal equations: rows are fitted so that every row times x is near its target. */
module LeastSquares {
  import opened LinearSystems
  import opened Numbers

  ghost predicate Wide(ts: Matrix, n: nat) {
    forall p :: 0 <= p < |ts| ==> |ts[p]| == n
  }

  /** The sum of all cs[p] * ts[p]. */
  ghost function Comb(ts: Matrix, cs: seq<real>, n: nat): (w: seq<real>)
    requires |cs| == |ts| && Wide(ts, n)
    ensures |w| == n
  {
    if ts == [] then Zeros(n) else
    var k := |ts| - 1;
    Add(Comb(ts[..k], cs[..k], n), cs[k], ts[k])
  }

  /** The values ts[p] . v. */
  ghost function Dots(ts: Matrix, v: seq<real>): (w: seq<real>)
    requires Wide(ts, |v|)
    ensures |w| == |ts| && forall p :: 0 <= p < |ts| ==> w[p] == Dot(ts[p], v)
  {
    seq(|ts|, p requires 0 <= p < |ts| => Dot(ts[p], v))
  }

  ghost function Column(ts: Matrix, n: nat, i: nat): (w: seq<real>)
    requires Wide(ts, n) && i < n
    ensures |w| == |ts| && forall p :: 0 <= p < |ts| ==> w[p] == ts[p][i]
  {
    seq(|ts|, p requires 0 <= p < |ts| => ts[p][i])
  }

  /** The matrix of the normal equations. */
  ghost function Gram(ts: Matrix, n: nat): (g: Matrix)
    requires Wide(ts, n)
    ensures IsSquare(g, n) && forall i :: 0 <= i < n ==> g[i] == Comb(ts, Column(ts, n, i), n)
  {
    seq(n, i requires 0 <= i < n => Comb(ts, Column(ts, n, i), n))
  }

  /** The rows have a common zero that is not the zero vector. */
  ghost predicate Dependent(ts: Matrix, n: nat)
    requires Wide(ts, n)
  {
    exists v :: |v| == n && NonZero(v) && Dots(ts, v) == Zeros(|ts|)
  }

  ghost function Residual(ts: Matrix, a: seq<real>, x: seq<real>): (r: seq<real>)
    requires |a| == |ts| && Wide(ts, |x|)
    ensures |r| == |ts|
  {
    Add(Dots(ts, x), -1.0, a)
  }

  /** The sum of the squared residuals. */
  ghost function SquaredError(ts: Matrix, a: seq<real>, x: seq<real>): real
    requires |a| == |ts| && Wide(ts, |x|)
  {
    Dot(Residual(ts, a, x), Residual(ts, a, x))
  }

  /** No other vector has an error as small as x has. */
  ghost predicate StrictlyBest(ts: Matrix, a: seq<real>, x: seq<real>)
    requires |a| == |ts| && Wide(ts, |x|)
  {
    forall f :: |f| == |x| && f != x ==> SquaredError(ts, a, x) < SquaredError(ts, a, f)
  }

  // ---------------------------------------------------------------------

  lemma {:induction false} Adjoint(ts: Matrix, cs: seq<real>, v: seq<real>)
    requires |cs| == |ts| && Wide(ts, |v|)
    ensures Dot(Comb(ts, cs, |v|), v) == Dot(cs, Dots(ts, v))
  {
    var n := |v|;
    if ts == [] {
      DotZero(Zeros(n), v);
    } else {
      hide Dot, Times;
      var k := |ts| - 1;
      assert Comb(ts, cs, n) == Add(Comb(ts[..k], cs[..k], n), cs[k], ts[k]);
      hide Comb;
      Adjoint(ts[..k], cs[..k], v);
      DotAddTimes(Comb(ts[..k], cs[..k], n), cs[k], ts[k], v);
      DotsFront(ts, v);
      DotFront(cs, Dots(ts, v));
    }
  }

  lemma DotsFront(ts: Matrix, v: seq<real>)
    requires |ts| > 0 && Wide(ts, |v|)
    ensures Dots(ts, v)[..|ts| - 1] == Dots(ts[..|ts| - 1], v)
  {
  }

  lemma ColumnFront(ts: Matrix, n: nat, i: nat)
    requires |ts| > 0 && Wide(ts, n) && i < n
    ensures Column(ts, n, i)[..|ts| - 1] == Column(ts[..|ts| - 1], n, i)
  {
  }

  /** Entry i of a combination of the rows is the combination of column i. */
  lemma {:induction false} CombAt(ts: Matrix, cs: seq<real>, n: nat, i: nat)
    requires |cs| == |ts| && Wide(ts, n) && i < n
    ensures Comb(ts, cs, n)[i] == Dot(cs, Column(ts, n, i))
  {
    if ts == [] {
    } else {
      var k := |ts| - 1;
      CombAt(ts[..k], cs[..k], n, i);
      ColumnFront(ts, n, i);
      DotFront(cs, Column(ts, n, i));
    }
  }

  lemma CombAppend(ts: Matrix, cs: seq<real>, t: seq<real>, c: real, n: nat)
    requires |cs| == |ts| && Wide(ts, n) && |t| == n
    ensures Comb(ts + [t], cs + [c], n) == Add(Comb(ts, cs, n), c, t)
  {
    assert (ts + [t])[..|ts|] == ts && (cs + [c])[..|cs|] == cs;
  }

  lemma GramAppend(ts: Matrix, t: seq<real>, n: nat, i: nat, j: nat)
    requires Wide(ts, n) && |t| == n && i < n && j < n
    ensures Gram(ts + [t], n)[i][j] == Gram(ts, n)[i][j] + t[i] * t[j]
  {
    CombAppend(ts, Column(ts, n, i), t, t[i], n);
    assert Column(ts + [t], n, i) == Column(ts, n, i) + [t[i]];
  }

  lemma GramSymmetric(ts: Matrix, n: nat, i: nat, j: nat)
    requires Wide(ts, n) && i < n && j < n
    ensures Gram(ts, n)[i][j] == Gram(ts, n)[j][i]
  {
    CombAt(ts, Column(ts, n, i), n, j);
    CombAt(ts, Column(ts, n, j), n, i);
    DotSymmetric(Column(ts, n, i), Column(ts, n, j));
  }

  lemma GramTimes(ts: Matrix, v: seq<real>, i: nat)
    requires Wide(ts, |v|) && i < |v|
    ensures Dot(Gram(ts, |v|)[i], v) == Comb(ts, Dots(ts, v), |v|)[i]
  {
    var n := |v|;
    Adjoint(ts, Column(ts, n, i), v);
    CombAt(ts, Dots(ts, v), n, i);
    DotSymmetric(Column(ts, n, i), Dots(ts, v));
  }

  /** The normal equations say that the residual is orthogonal to every column. */
  lemma NormalEquations(ts: Matrix, a: seq<real>, x: seq<real>)
    requires |a| == |ts| && Wide(ts, |x|)
    ensures Solves(Gram(ts, |x|), Comb(ts, a, |x|), x) <==> Comb(ts, Dots(ts, x), |x|) == Comb(ts, a, |x|)
  {
    hide Dot, Comb, Gram;
    var g, d, c := Gram(ts, |x|), Comb(ts, Dots(ts, x), |x|), Comb(ts, a, |x|);
    forall i | 0 <= i < |x|
      ensures Dot(g[i], x) == d[i]
    {
      GramTimes(ts, x, i);
    }
    if Solves(g, c, x) {
      assert forall i :: 0 <= i < |x| ==> Dot(g[i], x) == c[i];
      assert forall i :: 0 <= i < |x| ==> d[i] == c[i];
    }
  }

  /** The normal equations are singular exactly when the rows have a common zero. */
  lemma GramSingular(ts: Matrix, n: nat)
    requires Wide(ts, n)
    ensures Singular(Gram(ts, n)) <==> Dependent(ts, n)
  {
    if Singular(Gram(ts, n)) {
      var v :| |v| == n && NonZero(v) && Solves(Gram(ts, n), Zeros(n), v);
      GramZero(ts, v);
    }
    if Dependent(ts, n) {
      var v :| |v| == n && NonZero(v) && Dots(ts, v) == Zeros(|ts|);
      CombOfZeros(ts, n);
      NormalEquations(ts, Zeros(|ts|), v);
    }
  }

  lemma {:induction false} CombOfZeros(ts: Matrix, n: nat)
    requires Wide(ts, n)
    ensures Comb(ts, Zeros(|ts|), n) == Zeros(n)
  {
    if ts == [] {
    } else {
      var k := |ts| - 1;
      CombOfZeros(ts[..k], n);
      assert Zeros(|ts|)[..k] == Zeros(k);
      forall i | 0 <= i < n
        ensures Comb(ts, Zeros(|ts|), n)[i] == 0.0
      {
        ZeroFactor(Zeros(|ts|)[k], ts[k][i]);
      }
    }
  }

  lemma GramZero(ts: Matrix, v: seq<real>)
    requires Wide(ts, |v|) && Solves(Gram(ts, |v|), Zeros(|v|), v)
    ensures Dots(ts, v) == Zeros(|ts|)
  {
    var d := Dots(ts, v);
    CombOfZeros(ts, |v|);
    NormalEquations(ts, Zeros(|ts|), v);
    Adjoint(ts, d, v);
    DotZero(Comb(ts, d, |v|), v);
    SquaresPositive(d);
  }

  lemma {:induction false} CombAdd(ts: Matrix, u: seq<real>, c: real, v: seq<real>, n: nat)
    requires |u| == |v| == |ts| && Wide(ts, n)
    ensures Comb(ts, Add(u, c, v), n) == Add(Comb(ts, u, n), c, Comb(ts, v, n))
  {
    hide Dot, Comb, Times;
    forall i | 0 <= i < n
      ensures Comb(ts, Add(u, c, v), n)[i] == Add(Comb(ts, u, n), c, Comb(ts, v, n))[i]
    {
      CombAt(ts, Add(u, c, v), n, i);
      CombAt(ts, u, n, i);
      CombAt(ts, v, n, i);
      DotAddTimes(u, c, v, Column(ts, n, i));
    }
  }

  lemma DotsAdd(ts: Matrix, u: seq<real>, c: real, v: seq<real>)
    requires |u| == |v| && Wide(ts, |u|)
    ensures Dots(ts, Add(u, c, v)) == Add(Dots(ts, u), c, Dots(ts, v))
  {
    forall p | 0 <= p < |ts|
      ensures Dots(ts, Add(u, c, v))[p] == Add(Dots(ts, u), c, Dots(ts, v))[p]
    {
      hide Dot, Times;
      DotSymmetric(ts[p], Add(u, c, v));
      DotAddTimes(u, c, v, ts[p]);
      DotSymmetric(ts[p], u);
      DotSymmetric(ts[p], v);
    }
  }

  lemma SquareOfSum(u: seq<real>, v: seq<real>)
    requires |u| == |v| && Dot(u, v) == 0.0
    ensures Dot(Add(u, 1.0, v), Add(u, 1.0, v)) == Dot(u, u) + Dot(v, v)
  {
    hide Dot;
    var w := Add(u, 1.0, v);
    DotAdd(u, 1.0, v, w);
    DotSymmetric(u, w);
    DotSymmetric(v, w);
    DotAdd(u, 1.0, v, u);
    DotAdd(u, 1.0, v, v);
    DotSymmetric(v, u);
  }

  /** The error of any vector f is the error of a solution x of the normal equations and a sum of squares. */
  lemma Pythagoras(ts: Matrix, a: seq<real>, x: seq<real>, f: seq<real>)
    requires |a| == |ts| && |f| == |x| && Wide(ts, |x|)
    requires Solves(Gram(ts, |x|), Comb(ts, a, |x|), x)
    ensures var d := Dots(ts, Add(f, -1.0, x));
            SquaredError(ts, a, f) == SquaredError(ts, a, x) + Dot(d, d)
  {
    hide Dot, Solves, Gram;
    var e := Add(f, -1.0, x);
    var r, d := Residual(ts, a, x), Dots(ts, e);
    Orthogonal(ts, a, x, e);
    DotsAdd(ts, f, -1.0, x);
    ResidualShift(Dots(ts, f), Dots(ts, x), a);
    SquareOfSum(r, d);
  }

  /** The residual of a solution is orthogonal to everything the rows can add to it. */
  lemma Orthogonal(ts: Matrix, a: seq<real>, x: seq<real>, e: seq<real>)
    requires |a| == |ts| && |e| == |x| && Wide(ts, |x|)
    requires Solves(Gram(ts, |x|), Comb(ts, a, |x|), x)
    ensures Dot(Residual(ts, a, x), Dots(ts, e)) == 0.0
  {
    hide Dot;
    var r := Residual(ts, a, x);
    NormalEquations(ts, a, x);
    CombAdd(ts, Dots(ts, x), -1.0, a, |x|);
    assert Comb(ts, r, |x|) == Zeros(|x|);
    Adjoint(ts, r, e);
    DotZero(Zeros(|x|), e);
  }

  lemma ResidualShift(u: seq<real>, v: seq<real>, a: seq<real>)
    requires |u| == |v| == |a|
    ensures Add(u, -1.0, a) == Add(Add(v, -1.0, a), 1.0, Add(u, -1.0, v))
  {
  }

  lemma DifferenceNonZero(f: seq<real>, x: seq<real>)
    requires |f| == |x| && f != x
    ensures NonZero(Add(f, -1.0, x))
  {
    var k :| 0 <= k < |x| && f[k] != x[k];
    assert Add(f, -1.0, x)[k] == f[k] + -1.0 * x[k];
  }

  /** Solutions of regular normal equations are the unique best fit. */
  lemma NormalIsBest(ts: Matrix, a: seq<real>, x: seq<real>)
    requires |a| == |ts| && Wide(ts, |x|) && !Dependent(ts, |x|)
    requires Solves(Gram(ts, |x|), Comb(ts, a, |x|), x)
    ensures StrictlyBest(ts, a, x)
  {
    hide Dependent, Solves, Gram, SquaredError, Comb;
    forall f | |f| == |x| && f != x
      ensures SquaredError(ts, a, x) < SquaredError(ts, a, f)
    {
      StrictlyBetter(ts, a, x, f);
    }
  }

  lemma StrictlyBetter(ts: Matrix, a: seq<real>, x: seq<real>, f: seq<real>)
    requires |a| == |ts| && |f| == |x| && Wide(ts, |x|) && !Dependent(ts, |x|)
    requires Solves(Gram(ts, |x|), Comb(ts, a, |x|), x)
    requires f != x
    ensures SquaredError(ts, a, x) < SquaredError(ts, a, f)
  {
    hide Dot, Solves, Gram, SquaredError, Comb;
    var e := Add(f, -1.0, x);
    Pythagoras(ts, a, x, f);
    DifferenceNonZero(f, x);
    SquaresPositive(Dots(ts, e));
    assert Dots(ts, e) != Zeros(|ts|);
  }

  /** An exact solution of a regular system is the unique best fit, too. */
  lemma ExactIsBest(ts: Matrix, a: seq<real>, x: seq<real>)
    requires |a| == |ts| && Wide(ts, |x|) && !Dependent(ts, |x|) && Dots(ts, x) == a
    ensures StrictlyBest(ts, a, x)
  {
    NormalEquations(ts, a, x);
    NormalIsBest(ts, a, x);
  }

  /** For as many rows as unknowns the rows have a common zero exactly when they form a singular matrix. */
  lemma SquareDependent(ts: Matrix)
    requires Wide(ts, |ts|)
    ensures Singular(ts) <==> Dependent(ts, |ts|)
  {
    if Singular(ts) {
      var v :| |v| == |ts| && NonZero(v) && Solves(ts, Zeros(|ts|), v);
      assert Dots(ts, v) == Zeros(|ts|);
    }
    if Dependent(ts, |ts|) {
      var v :| |v| == |ts| && NonZero(v) && Dots(ts, v) == Zeros(|ts|);
      forall i | 0 <= i < |ts|
        ensures Dot(ts[i], v) == 0.0
      {
        assert Dots(ts, v)[i] == 0.0;
      }
      assert Solves(ts, Zeros(|ts|), v);
    }
  }
}

/** The manifold of k vectors with n strictly positive entries, stored as
    the columns of an n x k matrix, with the metric inherited from positive
    definite diagonal matrices: at x, the inner product of u and v weighs
    each entry by 1 / x^2. */
module StrictlyPositiveVectors {
  import opened Errors
  import opened Sums
  import opened Matrices

  datatype Manifold = Manifold(n: nat, k: nat)

  /** `dim`: `int(k * n)`. */
  function Dim(M: Manifold): (d: nat)
    ensures d == M.n * M.k
  {
    M.k * M.n
  }

  /** A point: an n x k matrix with strictly positive entries. */
  predicate IsPoint(M: Manifold, x: Matrix)
  {
    IsMatrix(x, M.n, M.k) && forall i, j :: 0 <= i < M.n && 0 <= j < M.k ==> x[i][j] > 0.0
  }

  /** A tangent vector: any n x k matrix. */
  predicate IsVector(M: Manifold, u: Matrix)
  {
    IsMatrix(u, M.n, M.k)
  }

  /** The entry (i, j) of `inv_x * u * inv_x * v`, where `inv_x = 1.0 / x`. */
  function Weighted(x: Matrix, u: Matrix, v: Matrix, i: int, j: int): real
  {
    var a := Entry(x, i, j);
    if a == 0.0 then 0.0 else (1.0 / a) * Entry(u, i, j) * (1.0 / a) * Entry(v, i, j)
  }

  /** The sum down column j of the weighted products. */
  function ColumnSum(M: Manifold, x: Matrix, u: Matrix, v: Matrix, j: int): real
  {
    Sum(M.n, i => Weighted(x, u, v, i, j))
  }

  /** `inner(x, u, v)`: the column sums of `inv_x * u * inv_x * v`, kept as
      a 1 x k array (`axis=0, keepdims=True`). */
  function Inner(M: Manifold, x: Matrix, u: Matrix, v: Matrix): (r: Matrix)
    ensures IsMatrix(r, 1, M.k)
  {
    [seq(M.k, j => ColumnSum(M, x, u, v, j))]
  }

  lemma {:induction false} WeightedSymmetric(b: real, u: real, v: real)
    ensures b * u * b * v == b * v * b * u
  {
  }

  lemma {:induction false} WeightedSquare(b: real, u: real)
    ensures b * u * b * u >= 0.0
  {
    calc {
      b * u * b * u;
      (b * u) * (b * u);
    >=
      0.0;
    }
  }

  /** The inner product is symmetric in its two vectors. */
  lemma {:induction false} InnerSymmetric(M: Manifold, x: Matrix, u: Matrix, v: Matrix)
    ensures Inner(M, x, u, v) == Inner(M, x, v, u)
  {
    forall j | 0 <= j < M.k
      ensures ColumnSum(M, x, u, v, j) == ColumnSum(M, x, v, u, j)
    {
      forall i | 0 <= i < M.n
        ensures Weighted(x, u, v, i, j) == Weighted(x, v, u, i, j)
      {
        if Entry(x, i, j) != 0.0 {
          WeightedSymmetric(1.0 / Entry(x, i, j), Entry(u, i, j), Entry(v, i, j));
        }
      }
      SumExt(M.n, i => Weighted(x, u, v, i, j), i => Weighted(x, v, u, i, j));
    }
    assert Inner(M, x, u, v)[0] == Inner(M, x, v, u)[0];
  }

  lemma {:induction false} WeightedSquareZero(b: real, u: real)
    requires b != 0.0 && b * u * b * u == 0.0
    ensures u == 0.0
  {
    assert (b * u) * (b * u) == 0.0;
    Matrices.SquareZero(b * u);
    NonZeroFactor(b, u);
  }

  lemma {:induction false} NonZeroFactor(b: real, u: real)
    requires b != 0.0 && b * u == 0.0
    ensures u == 0.0
  {
  }

  /** Every column of inner(x, u, u), the squared norm, is non-negative;
      at a point it is 0 only where that column of u is zero. */
  lemma {:induction false} InnerNonNegative(M: Manifold, x: Matrix, u: Matrix)
    ensures forall j :: 0 <= j < M.k ==> Inner(M, x, u, u)[0][j] >= 0.0
    ensures IsPoint(M, x) && IsVector(M, u) ==>
      forall j :: 0 <= j < M.k && Inner(M, x, u, u)[0][j] == 0.0 ==>
        forall i :: 0 <= i < M.n ==> u[i][j] == 0.0
  {
    forall j | 0 <= j < M.k
      ensures ColumnSum(M, x, u, u, j) >= 0.0
      ensures IsPoint(M, x) && IsVector(M, u) && ColumnSum(M, x, u, u, j) == 0.0 ==>
        forall i :: 0 <= i < M.n ==> u[i][j] == 0.0
    {
      var f := i => Weighted(x, u, u, i, j);
      forall i | 0 <= i < M.n
        ensures f(i) >= 0.0
      {
        if Entry(x, i, j) != 0.0 {
          WeightedSquare(1.0 / Entry(x, i, j), Entry(u, i, j));
        }
      }
      SumNonNegative(M.n, f);
      if IsPoint(M, x) && IsVector(M, u) && ColumnSum(M, x, u, u, j) == 0.0 {
        SumNonNegativeZero(M.n, f);
        forall i | 0 <= i < M.n
          ensures u[i][j] == 0.0
        {
          assert f(i) == 0.0;
          assert Entry(x, i, j) > 0.0;
          WeightedSquareZero(1.0 / Entry(x, i, j), Entry(u, i, j));
        }
      }
    }
  }

  lemma {:induction false} WeightedAdd(b: real, u: real, v: real, s: real, w: real)
    requires s == u + v
    ensures b * s * b * w == b * u * b * w + b * v * b * w
  {
  }

  lemma {:induction false} WeightedScale(b: real, c: real, u: real, s: real, w: real)
    requires s == c * u
    ensures b * s * b * w == c * (b * u * b * w)
  {
  }

  /** The inner product is additive in its first vector (and, by
      symmetry, in its second), column by column: for s == u + v,
      <s, w> == <u, w> + <v, w>. */
  lemma {:induction false} InnerAdd(M: Manifold, x: Matrix, u: Matrix, v: Matrix, s: Matrix, w: Matrix)
    requires IsVector(M, u) && IsVector(M, v) && IsVector(M, s)
    requires forall i, j :: 0 <= i < M.n && 0 <= j < M.k ==> s[i][j] == u[i][j] + v[i][j]
    ensures forall j :: 0 <= j < M.k ==>
      Inner(M, x, s, w)[0][j] == Inner(M, x, u, w)[0][j] + Inner(M, x, v, w)[0][j]
  {
    forall j | 0 <= j < M.k
      ensures ColumnSum(M, x, s, w, j) == ColumnSum(M, x, u, w, j) + ColumnSum(M, x, v, w, j)
    {
      var f, g, h := i => Weighted(x, u, w, i, j), i => Weighted(x, v, w, i, j), i => Weighted(x, s, w, i, j);
      forall i | 0 <= i < M.n
        ensures h(i) == f(i) + g(i)
      {
        if Entry(x, i, j) != 0.0 {
          WeightedAdd(1.0 / Entry(x, i, j), Entry(u, i, j), Entry(v, i, j), Entry(s, i, j), Entry(w, i, j));
        }
      }
      SumAdd(M.n, f, g, h);
    }
  }

  /** The inner product is homogeneous in its first vector (and, by
      symmetry, in its second), column by column: for s == c u,
      <s, w> == c <u, w>. */
  lemma {:induction false} InnerScale(M: Manifold, x: Matrix, c: real, u: Matrix, s: Matrix, w: Matrix)
    requires IsVector(M, u) && IsVector(M, s)
    requires forall i, j :: 0 <= i < M.n && 0 <= j < M.k ==> s[i][j] == c * u[i][j]
    ensures forall j :: 0 <= j < M.k ==> Inner(M, x, s, w)[0][j] == c * Inner(M, x, u, w)[0][j]
  {
    forall j | 0 <= j < M.k
      ensures ColumnSum(M, x, s, w, j) == c * ColumnSum(M, x, u, w, j)
    {
      ColumnScale(M, x, c, u, s, w, j);
    }
  }

  /** Column j of `InnerScale`. */
  lemma {:induction false} ColumnScale(M: Manifold, x: Matrix, c: real, u: Matrix, s: Matrix, w: Matrix, j: int)
    requires IsVector(M, u) && IsVector(M, s) && 0 <= j < M.k
    requires forall i :: 0 <= i < M.n ==> s[i][j] == c * u[i][j]
    ensures ColumnSum(M, x, s, w, j) == c * ColumnSum(M, x, u, w, j)
  {
    WeightsScale(M, x, c, u, s, w, j);
    SumScale(M.n, c, i => Weighted(x, u, w, i, j), i => Weighted(x, s, w, i, j));
  }

  /** Column j of `InnerScale`, term by term. */
  lemma {:induction false} WeightsScale(M: Manifold, x: Matrix, c: real, u: Matrix, s: Matrix, w: Matrix, j: int)
    requires IsVector(M, u) && IsVector(M, s) && 0 <= j < M.k
    requires forall i :: 0 <= i < M.n ==> s[i][j] == c * u[i][j]
    ensures forall i :: 0 <= i < M.n ==> Weighted(x, s, w, i, j) == c * Weighted(x, u, w, i, j)
  {
    forall i | 0 <= i < M.n
      ensures Weighted(x, s, w, i, j) == c * Weighted(x, u, w, i, j)
    {
      if Entry(x, i, j) != 0.0 {
        WeightedScale(1.0 / Entry(x, i, j), c, Entry(u, i, j), Entry(s, i, j), Entry(w, i, j));
      }
    }
  }

  /** `proj(x, u)`: every vector is tangent, so the identity. */
  function Proj(M: Manifold, x: Matrix, u: Matrix): (r: Matrix)
    requires IsVector(M, u)
    ensures IsVector(M, r)
    ensures r == u
  {
    u
  }

  /** `egrad2rgrad(x, u)`: `u * (x ** 2)`, entrywise. */
  function EGrad2RGrad(M: Manifold, x: Matrix, u: Matrix): (r: Matrix)
    requires IsPoint(M, x) && IsVector(M, u)
    ensures IsVector(M, r)
  {
    seq(M.n, i requires 0 <= i < M.n => seq(M.k, j requires 0 <= j < M.k => u[i][j] * (x[i][j] * x[i][j])))
  }

  lemma {:induction false} CancelWeight(a: real, u: real, v: real)
    requires a != 0.0
    ensures (1.0 / a) * (u * (a * a)) * (1.0 / a) * v == u * v
  {
    assert (1.0 / a) * a == 1.0;
    calc {
      (1.0 / a) * (u * (a * a)) * (1.0 / a) * v;
      ((1.0 / a) * a) * (((1.0 / a) * a) * (u * v));
      ((1.0 / a) * a) * (u * v);
      u * v;
    }
  }

  /** What makes the conversion the Riemannian gradient: measured with the
      metric at x, the converted gradient pairs with any v exactly as the
      Euclidean gradient u pairs with v entrywise. */
  lemma {:induction false} EGrad2RGradPairing(M: Manifold, x: Matrix, u: Matrix, v: Matrix)
    requires IsPoint(M, x) && IsVector(M, u) && IsVector(M, v)
    ensures forall j :: 0 <= j < M.k ==>
              Inner(M, x, EGrad2RGrad(M, x, u), v)[0][j] == Sum(M.n, i => Entry(u, i, j) * Entry(v, i, j))
  {
    var g := EGrad2RGrad(M, x, u);
    forall j | 0 <= j < M.k
      ensures ColumnSum(M, x, g, v, j) == Sum(M.n, i => Entry(u, i, j) * Entry(v, i, j))
    {
      forall i | 0 <= i < M.n
        ensures Weighted(x, g, v, i, j) == Entry(u, i, j) * Entry(v, i, j)
      {
        CancelWeight(x[i][j], u[i][j], v[i][j]);
      }
      SumExt(M.n, i => Weighted(x, g, v, i, j), i => Entry(u, i, j) * Entry(v, i, j));
    }
  }

  /** `retr(x, u)`: x + u. */
  function Retr(M: Manifold, x: Matrix, u: Matrix): (y: Matrix)
    requires IsMatrix(x, M.n, M.k) && IsVector(M, u)
    ensures IsMatrix(y, M.n, M.k)
    ensures forall i, j :: 0 <= i < M.n && 0 <= j < M.k ==> y[i][j] - x[i][j] == u[i][j]
  {
    Add(x, u)
  }

  /** `zerovec(x)` as written calls `np.zeros(n, k)`, which passes k where
      numpy expects a data type, so it raises TypeError for every k. */
  function ZeroVecAsWritten(M: Manifold, x: Matrix): (r: Result<Matrix>)
    ensures r.Err? && r.error.TypeError?
  {
    Err(TypeError("Cannot interpret '" + IntToString(M.k) + "' as a data type"))
  }

  /** `zerovec(x)` as evidently intended: `np.zeros((n, k))`. */
  function ZeroVec(M: Manifold, x: Matrix): (z: Matrix)
    ensures IsVector(M, z)
    ensures forall i, j :: 0 <= i < M.n && 0 <= j < M.k ==> z[i][j] == 0.0
  {
    Zeros(M.n, M.k)
  }

  /** The written `zerovec` never yields a vector, while the intended one is
      a tangent vector that the retraction does not move along and that is
      orthogonal to everything. */
  lemma {:induction false} ZeroVecProperties(M: Manifold, x: Matrix, v: Matrix)
    requires IsPoint(M, x) && IsVector(M, v)
    ensures !ZeroVecAsWritten(M, x).Ok?
    ensures Retr(M, x, ZeroVec(M, x)) == x
    ensures Inner(M, x, ZeroVec(M, x), v) == [seq(M.k, j => 0.0)]
  {
    var z := ZeroVec(M, x);
    Ext(Retr(M, x, z), x, M.n, M.k);
    forall j | 0 <= j < M.k
      ensures ColumnSum(M, x, z, v, j) == 0.0
    {
      SumZero(M.n, i => Weighted(x, z, v, i, j));
    }
    assert Inner(M, x, z, v)[0] == seq(M.k, j => 0.0);
  }
}

/** The manifold of m x n real matrices of rank k, embedded in the space of
    m x n matrices with the Frobenius inner product.  A point is kept as its
    thin singular value decomposition (U, s, Vt), and a tangent vector at it
    as the triple (Up, M, Vp) standing for U M Vt + Up Vt + U Vp^T, with
    U^T Up == 0 and Vt Vp == 0. */
module FixedRank {
  import opened Errors
  import opened Sums
  import opened Matrices
  import Stiefel

  datatype Manifold = Manifold(m: nat, n: nat, k: nat)

  /** The parameters a constructed manifold always has. */
  predicate Valid(F: Manifold)
  {
    F.m >= F.k >= 1 && F.n >= F.k
  }

  /** `FixedRankEmbedded(m, n, k)`: the checks are those of the two Stiefel
      manifolds St(m, k) and St(n, k) it builds, in that order. */
  function New(m: int, n: int, k: int): (r: Result<Manifold>)
    ensures r.Ok? <==> 1 <= k <= m && k <= n
    ensures r.Ok? ==> r.value == Manifold(m, n, k) && Valid(r.value)
    ensures !(1 <= k <= m) ==> r == Err(ValueError(Stiefel.ShapeMessage(m, k)))
    ensures 1 <= k <= m && k > n ==> r == Err(ValueError(Stiefel.ShapeMessage(n, k)))
  {
    match Stiefel.New(m, k, 1)
    case Err(e) => Err(e)
    case Ok(_) =>
      match Stiefel.New(n, k, 1)
      case Err(e) => Err(e)
      case Ok(_) => Ok(Manifold(m, n, k))
  }

  /** `dim`: (m + n - k) k, that is m n less the (m - k)(n - k) dimensions
      of the normal space. */
  function Dim(F: Manifold): (d: int)
    ensures d == F.m * F.n - (F.m - F.k) * (F.n - F.k)
  {
    (F.m + F.n - F.k) * F.k
  }

  /** `point_layout`: a point is the triple of arrays (U, s, Vt). */
  function PointLayout(F: Manifold): (l: nat)
    ensures l == 3
  {
    3
  }

  /** The rank-k matrices have at least k^2 and at most m n dimensions, the
      latter because (m - k)(n - k) is never negative. */
  lemma {:induction false} DimBounds(F: Manifold)
    requires Valid(F)
    ensures F.k * F.k <= Dim(F) <= F.m * F.n
  {
    var m, n, k := F.m, F.n, F.k;
    assert (m - k) * (n - k) >= 0;
    assert m * n - Dim(F) == (m - k) * (n - k);
    assert Dim(F) - k * k == (m + n - 2 * k) * k;
  }

  /** `typicaldist`: the dimension itself, with no square root; it lies
      between k^2 and m n. */
  function TypicalDist(F: Manifold): (d: int)
    ensures Valid(F) ==> F.k * F.k <= d <= F.m * F.n
  {
    if Valid(F) then DimBounds(F); Dim(F) else Dim(F)
  }

  // ---------------------------------------------------------------------
  // Points, tangent vectors and ambient matrices

  /** A point (U, s, Vt): U is m x k, s holds k singular values, Vt is k x n. */
  datatype Point = Point(u: Matrix, s: seq<real>, vt: Matrix)

  /** A tangent vector (Up, M, Vp): Up is m x k, M is k x k, Vp is n x k. */
  datatype TangentVector = TangentVector(Up: Matrix, M: Matrix, Vp: Matrix)

  /** A matrix of the ambient space, either as an m x n array or as a
      factored triple (Z0, Z1, Z2) standing for Z0 Z1 Z2^T. */
  datatype Ambient = Dense(Z: Matrix) | Factored(Z0: Matrix, Z1: Matrix, Z2: Matrix)

  /** The arrays of X have the shapes of a point. */
  predicate PointShape(F: Manifold, X: Point)
  {
    Valid(F) && IsMatrix(X.u, F.m, F.k) && |X.s| == F.k && IsMatrix(X.vt, F.k, F.n)
  }

  /** A point: U has orthonormal columns and Vt orthonormal rows. */
  predicate IsPoint(F: Manifold, X: Point)
  {
    PointShape(F, X)
    && Mul(Transpose(X.u), X.u) == Identity(F.k)
    && Mul(X.vt, Transpose(X.vt)) == Identity(F.k)
  }

  /** The arrays of G have the shapes of a tangent vector. */
  predicate VectorShape(F: Manifold, G: TangentVector)
  {
    IsMatrix(G.Up, F.m, F.k) && IsMatrix(G.M, F.k, F.k) && IsMatrix(G.Vp, F.n, F.k)
  }

  /** G is tangent at X: U^T Up == 0 and Vt Vp == 0. */
  predicate IsTangent(F: Manifold, X: Point, G: TangentVector)
    requires PointShape(F, X) && VectorShape(F, G)
  {
    Mul(Transpose(X.u), G.Up) == Zeros(F.k, F.k) && Mul(X.vt, G.Vp) == Zeros(F.k, F.k)
  }

  /** Z stands for an m x n matrix. */
  predicate AmbientShape(F: Manifold, Z: Ambient)
  {
    match Z
    case Dense(A) => IsMatrix(A, F.m, F.n)
    case Factored(Z0, Z1, Z2) =>
      Rect(Z0) && Rect(Z1) && Rect(Z2) && |Z0| == F.m && |Z2| == F.n
      && Cols(Z0) == |Z1| && |Z1| > 0 && Cols(Z1) == Cols(Z2) && Cols(Z2) > 0
  }

  /** The m x n matrix Z stands for: Z itself, or Z0 Z1 Z2^T. */
  function Expand(F: Manifold, Z: Ambient): (A: Matrix)
    requires Valid(F) && AmbientShape(F, Z)
    ensures IsMatrix(A, F.m, F.n)
  {
    match Z
    case Dense(A) => A
    case Factored(Z0, Z1, Z2) => Mul(Mul(Z0, Z1), Transpose(Z2))
  }

  // ---------------------------------------------------------------------
  // Multiplying an ambient matrix by a thin matrix

  /** `_apply_ambient(Z, W)`: Z W, with the factors multiplied left to right. */
  function ApplyAmbient(F: Manifold, Z: Ambient, W: Matrix): (R: Matrix)
    requires Valid(F) && AmbientShape(F, Z) && Rect(W) && |W| == F.n && Cols(W) > 0
    ensures IsMatrix(R, F.m, Cols(W))
  {
    match Z
    case Dense(A) => Mul(A, W)
    case Factored(Z0, Z1, Z2) => Mul(Mul(Mul(Z0, Z1), Transpose(Z2)), W)
  }

  /** `_apply_ambient` multiplies W by the matrix Z stands for; in factored
      form that is the same as applying Z2^T, Z1 and Z0 one after another. */
  lemma {:induction false} ApplyAmbientExpand(F: Manifold, Z: Ambient, W: Matrix)
    requires Valid(F) && AmbientShape(F, Z) && Rect(W) && |W| == F.n && Cols(W) > 0
    ensures ApplyAmbient(F, Z, W) == Mul(Expand(F, Z), W)
    ensures Z.Factored? ==> ApplyAmbient(F, Z, W) == Mul(Z.Z0, Mul(Z.Z1, Mul(Transpose(Z.Z2), W)))
  {
    if Z.Factored? {
      var Z0, Z1, Z2T := Z.Z0, Z.Z1, Transpose(Z.Z2);
      MulAssoc(Mul(Z0, Z1), Z2T, W);
      MulAssoc(Z0, Z1, Mul(Z2T, W));
    }
  }

  /** `_apply_ambient_transpose(Z, W)` as written: for a factored Z it
      multiplies by Z2 Z1 Z0^T, which is the transpose of Z0 Z1 Z2^T only
      when Z1 is symmetric.  (A non-square Z1 makes NumPy raise a shape
      error; that case is not modelled.) */
  function ApplyAmbientTransposeAsWritten(F: Manifold, Z: Ambient, W: Matrix): (R: Matrix)
    requires Valid(F) && AmbientShape(F, Z) && Rect(W) && |W| == F.m && Cols(W) > 0
    requires Z.Factored? ==> |Z.Z1| == Cols(Z.Z1)
    ensures IsMatrix(R, F.n, Cols(W))
  {
    match Z
    case Dense(A) => Mul(Transpose(A), W)
    case Factored(Z0, Z1, Z2) => Mul(Mul(Mul(Z2, Z1), Transpose(Z0)), W)
  }

  /** `_apply_ambient_transpose(Z, W)` with the transpose of the middle
      factor that the documented meaning, Z^T W, needs. */
  function ApplyAmbientTranspose(F: Manifold, Z: Ambient, W: Matrix): (R: Matrix)
    requires Valid(F) && AmbientShape(F, Z) && Rect(W) && |W| == F.m && Cols(W) > 0
    ensures IsMatrix(R, F.n, Cols(W))
  {
    match Z
    case Dense(A) => Mul(Transpose(A), W)
    case Factored(Z0, Z1, Z2) => Mul(Mul(Mul(Z2, Transpose(Z1)), Transpose(Z0)), W)
  }

  /** The corrected `_apply_ambient_transpose` multiplies W by the transpose
      of the matrix Z stands for. */
  lemma {:induction false} ApplyAmbientTransposeExpand(F: Manifold, Z: Ambient, W: Matrix)
    requires Valid(F) && AmbientShape(F, Z) && Rect(W) && |W| == F.m && Cols(W) > 0
    ensures ApplyAmbientTranspose(F, Z, W) == Mul(Transpose(Expand(F, Z)), W)
  {
    if Z.Factored? {
      var Z0, Z1, Z2 := Z.Z0, Z.Z1, Z.Z2;
      var Z01 := Mul(Z0, Z1);
      TransposeMul(Z01, Transpose(Z2));
      TransposeTranspose(Z2);
      TransposeMul(Z0, Z1);
      MulAssoc(Z2, Transpose(Z1), Transpose(Z0));
    }
  }

  /** As written, `_apply_ambient_transpose` agrees with the corrected one
      whenever the middle factor is symmetric, as the identity matrix made
      by `tangent2ambient` is. */
  lemma {:induction false} AsWrittenAgreesWhenSymmetric(F: Manifold, Z: Ambient, W: Matrix)
    requires Valid(F) && AmbientShape(F, Z) && Rect(W) && |W| == F.m && Cols(W) > 0
    requires Z.Factored? ==> |Z.Z1| == Cols(Z.Z1) && IsSymmetric(Z.Z1)
    ensures ApplyAmbientTransposeAsWritten(F, Z, W) == ApplyAmbientTranspose(F, Z, W)
  {
    if Z.Factored? {
      SymmetricTranspose(Z.Z1);
    }
  }

  /** With m = n = 2, Z = (I, [[0, 1], [0, 0]], I) and W = I, the matrix Z
      stands for is [[0, 1], [0, 0]], whose transpose is [[0, 0], [1, 0]],
      but `_apply_ambient_transpose` as written returns [[0, 1], [0, 0]]. */
  lemma {:induction false} AsWrittenTransposeCounterexample()
    ensures var F, I, N := Manifold(2, 2, 1), [[1.0, 0.0], [0.0, 1.0]], [[0.0, 1.0], [0.0, 0.0]];
      var Z := Factored(I, N, I);
      AmbientShape(F, Z) && Valid(F)
      && ApplyAmbientTransposeAsWritten(F, Z, I)[0][1] == 1.0
      && Mul(Transpose(Expand(F, Z)), I)[0][1] == 0.0
      && ApplyAmbientTransposeAsWritten(F, Z, I) != Mul(Transpose(Expand(F, Z)), I)
  {
    var F, I, N := Manifold(2, 2, 1), [[1.0, 0.0], [0.0, 1.0]], [[0.0, 1.0], [0.0, 0.0]];
    var Z := Factored(I, N, I);
    assert I == Identity(2) by {
      Ext(I, Identity(2), 2, 2);
    }
    MulIdentityRight(N);
    MulIdentityLeft(N);
    TransposeTranspose(I);
    assert Transpose(I) == I by {
      Ext(Transpose(I), I, 2, 2);
    }
    assert Expand(F, Z) == N;
    assert ApplyAmbientTransposeAsWritten(F, Z, I) == N by {
      MulIdentityRight(Mul(I, N));
    }
    var NT := Transpose(N);
    assert NT[0][1] == 0.0;
    MulIdentityRight(NT);
  }

  // ---------------------------------------------------------------------
  // Orthogonal complements

  /** For Q with orthonormal columns (Qt == Q^T), D - Q Qt D is orthogonal
      to the columns of Q. */
  lemma {:induction false} ComplementOrthogonal(Q: Matrix, Qt: Matrix, D: Matrix)
    requires Rect(Q) && |Q| > 0 && Cols(Q) > 0 && Qt == Transpose(Q)
    requires Mul(Qt, Q) == Identity(Cols(Q))
    requires Rect(D) && |D| == |Q| && Cols(D) > 0
    ensures Mul(Qt, Sub(D, Mul(Q, Mul(Qt, D)))) == Zeros(Cols(Q), Cols(D))
  {
    var A := Mul(Qt, D);
    MulSubLeft(Qt, D, Mul(Q, A));
    MulAssoc(Qt, Q, A);
    MulIdentityLeft(A);
    SubSelf(A);
  }

  /** D - Q Qt D == D when D is already orthogonal to the columns of Q. */
  lemma {:induction false} ComplementFixes(Q: Matrix, Qt: Matrix, D: Matrix)
    requires Rect(Q) && |Q| > 0 && Cols(Q) > 0 && Qt == Transpose(Q)
    requires Rect(D) && |D| == |Q| && Cols(D) > 0
    requires Mul(Qt, D) == Zeros(Cols(Q), Cols(D))
    ensures Sub(D, Mul(Q, Mul(Qt, D))) == D
  {
    MulZerosRight(Q, Cols(D));
    SubZeros(D);
  }

  // ---------------------------------------------------------------------
  // Projection onto the tangent space

  /** `proj(X, Z)`: with ZV = Z Vt^T, Up = ZV - U (U^T ZV), M = U^T ZV and
      Vp = Z^T U - Vt^T M^T. */
  function Proj(F: Manifold, X: Point, Z: Ambient): (G: TangentVector)
    requires PointShape(F, X) && AmbientShape(F, Z)
    ensures VectorShape(F, G)
  {
    var V := Transpose(X.vt);
    var ZV := ApplyAmbient(F, Z, V);
    var UtZV := Mul(Transpose(X.u), ZV);
    var ZtU := ApplyAmbientTranspose(F, Z, X.u);
    TangentVector(Sub(ZV, Mul(X.u, UtZV)), UtZV, Sub(ZtU, Mul(V, Transpose(UtZV))))
  }

  /** M^T == Vt (Z^T U), so Vp has the form D - Vt^T Vt D. */
  lemma {:induction false} ProjMTranspose(F: Manifold, X: Point, Z: Ambient)
    requires PointShape(F, X) && AmbientShape(F, Z)
    ensures Transpose(Proj(F, X, Z).M) == Mul(X.vt, ApplyAmbientTranspose(F, Z, X.u))
  {
    var u, vt, E := X.u, X.vt, Expand(F, Z);
    var V := Transpose(vt);
    ApplyAmbientExpand(F, Z, V);
    ApplyAmbientTransposeExpand(F, Z, u);
    var ZV := Mul(E, V);
    TransposeMul(Transpose(u), ZV);
    TransposeTranspose(u);
    TransposeMul(E, V);
    TransposeTranspose(vt);
    MulAssoc(vt, Transpose(E), u);
  }

  /** At a point, `proj` returns a tangent vector whose middle factor is
      U^T Z Vt^T, for a dense and a factored Z alike. */
  lemma {:induction false} ProjTangent(F: Manifold, X: Point, Z: Ambient)
    requires IsPoint(F, X) && AmbientShape(F, Z)
    ensures IsTangent(F, X, Proj(F, X, Z))
    ensures Proj(F, X, Z).M == Mul(Transpose(X.u), Mul(Expand(F, Z), Transpose(X.vt)))
  {
    var u, vt := X.u, X.vt;
    var V := Transpose(vt);
    ApplyAmbientExpand(F, Z, V);
    ComplementOrthogonal(u, Transpose(u), ApplyAmbient(F, Z, V));
    ProjMTranspose(F, X, Z);
    TransposeTranspose(vt);
    ComplementOrthogonal(V, vt, ApplyAmbientTranspose(F, Z, u));
  }

  /** `proj` of a factored matrix is `proj` of the dense matrix it stands for. */
  lemma {:induction false} ProjFactored(F: Manifold, X: Point, Z: Ambient)
    requires PointShape(F, X) && AmbientShape(F, Z)
    ensures Proj(F, X, Z) == Proj(F, X, Dense(Expand(F, Z)))
  {
    var D := Dense(Expand(F, Z));
    ApplyAmbientExpand(F, Z, Transpose(X.vt));
    ApplyAmbientExpand(F, D, Transpose(X.vt));
    ApplyAmbientTransposeExpand(F, Z, X.u);
    ApplyAmbientTransposeExpand(F, D, X.u);
  }

  /** `proj(X, Z)` as written: Vp is computed with the as-written
      `_apply_ambient_transpose`, so only Vp can differ from `Proj`. */
  function ProjAsWritten(F: Manifold, X: Point, Z: Ambient): (G: TangentVector)
    requires PointShape(F, X) && AmbientShape(F, Z)
    requires Z.Factored? ==> |Z.Z1| == Cols(Z.Z1)
    ensures VectorShape(F, G)
    ensures G.Up == Proj(F, X, Z).Up && G.M == Proj(F, X, Z).M
  {
    var V := Transpose(X.vt);
    var ZV := ApplyAmbient(F, Z, V);
    var UtZV := Mul(Transpose(X.u), ZV);
    var ZtU := ApplyAmbientTransposeAsWritten(F, Z, X.u);
    TangentVector(Sub(ZV, Mul(X.u, UtZV)), UtZV, Sub(ZtU, Mul(V, Transpose(UtZV))))
  }

  /** As written, `proj` is the corrected one for a dense Z and for a
      factored Z with a symmetric middle factor. */
  lemma {:induction false} ProjAsWrittenAgrees(F: Manifold, X: Point, Z: Ambient)
    requires PointShape(F, X) && AmbientShape(F, Z)
    requires Z.Factored? ==> |Z.Z1| == Cols(Z.Z1) && IsSymmetric(Z.Z1)
    ensures ProjAsWritten(F, X, Z) == Proj(F, X, Z)
  {
    AsWrittenAgreesWhenSymmetric(F, Z, X.u);
  }

  /** The input on which `proj` as written goes wrong: m = n = 2, k = 1,
      X = ([[1], [0]], [1], [[0, 1]]) and Z = (I, [[0, 1], [0, 0]], I). */
  const CexManifold := Manifold(2, 2, 1)
  const CexPoint := Point([[1.0], [0.0]], [1.0], [[0.0, 1.0]])
  const CexAmbient := Factored([[1.0, 0.0], [0.0, 1.0]], [[0.0, 1.0], [0.0, 0.0]], [[1.0, 0.0], [0.0, 1.0]])

  lemma {:induction false} CexIsPoint()
    ensures IsPoint(CexManifold, CexPoint) && AmbientShape(CexManifold, CexAmbient)
    ensures Transpose(CexPoint.u) == [[1.0, 0.0]] && Transpose(CexPoint.vt) == [[0.0], [1.0]]
  {
    var u, vt := CexPoint.u, CexPoint.vt;
    var ut, V := Transpose(u), Transpose(vt);
    Ext(ut, [[1.0, 0.0]], 1, 2);
    Ext(V, [[0.0], [1.0]], 2, 1);
    assert Mul(ut, u)[0][0] == 1.0;
    Ext(Mul(ut, u), Identity(1), 1, 1);
    assert Mul(vt, V)[0][0] == 1.0;
    Ext(Mul(vt, V), Identity(1), 1, 1);
  }

  /** With identity outer factors, both orders of the factors reduce to
      the middle one, N = [[0, 1], [0, 0]], or its transpose. */
  lemma {:induction false} CexFactors()
    ensures var I, N := CexAmbient.Z0, CexAmbient.Z1;
      Mul(Mul(I, N), Transpose(I)) == N && Mul(Mul(I, Transpose(N)), Transpose(I)) == Transpose(N)
  {
    var I, N := CexAmbient.Z0, CexAmbient.Z1;
    Ext(I, Identity(2), 2, 2);
    Ext(Transpose(I), I, 2, 2);
    MulIdentityLeft(N);
    MulIdentityRight(N);
    MulIdentityLeft(Transpose(N));
    MulIdentityRight(Transpose(N));
  }

  /** The factored Z stands for N: Z V == [[1], [0]], N U == 0 and
      N^T U == [[0], [1]]. */
  lemma {:induction false} CexProducts()
    ensures ApplyAmbient(CexManifold, CexAmbient, [[0.0], [1.0]]) == [[1.0], [0.0]]
    ensures ApplyAmbientTransposeAsWritten(CexManifold, CexAmbient, CexPoint.u) == [[0.0], [0.0]]
    ensures ApplyAmbientTranspose(CexManifold, CexAmbient, CexPoint.u) == [[0.0], [1.0]]
  {
    CexFactors();
    CexTimesN();
  }

  lemma {:induction false} CexTimesN()
    ensures var N := [[0.0, 1.0], [0.0, 0.0]];
      Mul(N, [[0.0], [1.0]]) == [[1.0], [0.0]] && Mul(N, [[1.0], [0.0]]) == [[0.0], [0.0]]
      && Mul(Transpose(N), [[1.0], [0.0]]) == [[0.0], [1.0]]
  {
    var N := [[0.0, 1.0], [0.0, 0.0]];
    var ZV, A, B := Mul(N, [[0.0], [1.0]]), Mul(N, [[1.0], [0.0]]), Mul(Transpose(N), [[1.0], [0.0]]);
    assert ZV[0][0] == 1.0 && ZV[1][0] == 0.0;
    Ext(ZV, [[1.0], [0.0]], 2, 1);
    assert A[0][0] == 0.0 && A[1][0] == 0.0;
    Ext(A, [[0.0], [0.0]], 2, 1);
    assert B[0][0] == 0.0 && B[1][0] == 1.0;
    Ext(B, [[0.0], [1.0]], 2, 1);
  }

  /** On that input the middle factor is [[1]] and Vt^T M^T == [[0], [1]]. */
  lemma {:induction false} CexMiddle()
    ensures Mul([[1.0, 0.0]], [[1.0], [0.0]]) == [[1.0]]
    ensures Mul([[0.0], [1.0]], Transpose([[1.0]])) == [[0.0], [1.0]]
  {
    var M := Mul([[1.0, 0.0]], [[1.0], [0.0]]);
    assert M[0][0] == 1.0;
    Ext(M, [[1.0]], 1, 1);
    var T := Transpose([[1.0]]);
    Ext(T, [[1.0]], 1, 1);
    var W := Mul([[0.0], [1.0]], T);
    assert W[0][0] == 0.0 && W[1][0] == 1.0;
    Ext(W, [[0.0], [1.0]], 2, 1);
  }

  /** `proj` as written returns Vp = [[0], [-1]] on that input, so
      Vt Vp = [[-1]] and the result is not tangent; the corrected `proj`
      returns Vp = 0 and a tangent vector. */
  lemma {:induction false} ProjAsWrittenCounterexample()
    ensures IsPoint(CexManifold, CexPoint) && AmbientShape(CexManifold, CexAmbient)
    ensures ProjAsWritten(CexManifold, CexPoint, CexAmbient).Vp == [[0.0], [-1.0]]
    ensures !IsTangent(CexManifold, CexPoint, ProjAsWritten(CexManifold, CexPoint, CexAmbient))
    ensures Proj(CexManifold, CexPoint, CexAmbient).Vp == Zeros(2, 1)
    ensures IsTangent(CexManifold, CexPoint, Proj(CexManifold, CexPoint, CexAmbient))
  {
    var F, X, Z := CexManifold, CexPoint, CexAmbient;
    CexIsPoint();
    CexVp();
    CexOffTangent();
    ProjTangent(F, X, Z);
  }

  /** Vt Vp == [[-1]] for Vt = [[0, 1]] and Vp = [[0], [-1]]. */
  lemma {:induction false} CexOffTangent()
    ensures Mul([[0.0, 1.0]], [[0.0], [-1.0]]) != Zeros(1, 1)
  {
    var A, B := [[0.0, 1.0]], [[0.0], [-1.0]];
    var f := l => Entry(A, 0, l) * Entry(B, l, 0);
    assert f(0) == 0.0 && f(1) == -1.0;
    assert Dot(A, 0, B, 0) == Sum(2, f) == Sum(1, f) + f(1) == f(0) + f(1);
    assert Mul(A, B)[0][0] == -1.0;
  }

  /** The Vp component of both projections on that input. */
  lemma {:induction false} CexVp()
    ensures PointShape(CexManifold, CexPoint) && AmbientShape(CexManifold, CexAmbient)
    ensures ProjAsWritten(CexManifold, CexPoint, CexAmbient).Vp == [[0.0], [-1.0]]
    ensures Proj(CexManifold, CexPoint, CexAmbient).Vp == Zeros(2, 1)
  {
    var F, X, Z := CexManifold, CexPoint, CexAmbient;
    CexIsPoint();
    CexProducts();
    CexMiddle();
    var V := Transpose(X.vt);
    var ZV := ApplyAmbient(F, Z, V);
    var UtZV := Mul(Transpose(X.u), ZV);
    var R := Mul(V, Transpose(UtZV));
    assert R == [[0.0], [1.0]];
    CexSub();
  }

  lemma {:induction false} CexSub()
    ensures Sub([[0.0], [0.0]], [[0.0], [1.0]]) == [[0.0], [-1.0]]
    ensures Sub([[0.0], [1.0]], [[0.0], [1.0]]) == Zeros(2, 1)
  {
    Ext(Sub([[0.0], [0.0]], [[0.0], [1.0]]), [[0.0], [-1.0]], 2, 1);
    Ext(Sub([[0.0], [1.0]], [[0.0], [1.0]]), Zeros(2, 1), 2, 1);
  }

  // ---------------------------------------------------------------------
  // From tangent triples back to the ambient space

  /** `to_ambient`: U M Vt + Up Vt + U Vp^T, an m x n matrix. */
  function ToAmbient(F: Manifold, X: Point, G: TangentVector): (A: Matrix)
    requires PointShape(F, X) && VectorShape(F, G)
    ensures IsMatrix(A, F.m, F.n)
  {
    Add(Add(Mul(Mul(X.u, G.M), X.vt), Mul(G.Up, X.vt)), Mul(X.u, Transpose(G.Vp)))
  }

  /** `tangent2ambient`: the factored triple (U, S, V) with
      U = [X.U M + Up, X.U], S = I_2k and V = [Vt^T, Vp]. */
  function Tangent2Ambient(F: Manifold, X: Point, G: TangentVector): (Z: Ambient)
    requires PointShape(F, X) && VectorShape(F, G)
    ensures Z.Factored? && AmbientShape(F, Z)
    ensures IsMatrix(Z.Z0, F.m, 2 * F.k) && Z.Z1 == Identity(2 * F.k) && IsMatrix(Z.Z2, F.n, 2 * F.k)
  {
    Factored(HStack(Add(Mul(X.u, G.M), G.Up), X.u), Identity(2 * F.k), HStack(Transpose(X.vt), G.Vp))
  }

  /** The factored triple of `tangent2ambient` stands for `to_ambient`. */
  lemma {:induction false} Tangent2AmbientExpand(F: Manifold, X: Point, G: TangentVector)
    requires PointShape(F, X) && VectorShape(F, G)
    ensures Expand(F, Tangent2Ambient(F, X, G)) == ToAmbient(F, X, G)
  {
    var u, vt := X.u, X.vt;
    var A, C := Add(Mul(u, G.M), G.Up), Transpose(vt);
    var Z := Tangent2Ambient(F, X, G);
    MulIdentityRight(Z.Z0);
    HStackMul(A, u, C, G.Vp);
    TransposeTranspose(vt);
    MulAddRight(Mul(u, G.M), G.Up, vt);
  }

  /** Z Vt^T for the ambient form of a tangent vector is U M + Up. */
  lemma {:induction false} ToAmbientTimesV(F: Manifold, X: Point, G: TangentVector)
    requires IsPoint(F, X) && VectorShape(F, G) && IsTangent(F, X, G)
    ensures Mul(ToAmbient(F, X, G), Transpose(X.vt)) == Add(Mul(X.u, G.M), G.Up)
  {
    var u, vt, V := X.u, X.vt, Transpose(X.vt);
    var UM := Mul(u, G.M);
    var P1, P2, P3 := Mul(UM, vt), Mul(G.Up, vt), Mul(u, Transpose(G.Vp));
    MulAddRight(Add(P1, P2), P3, V);
    MulAddRight(P1, P2, V);
    MulAssoc(UM, vt, V);
    MulIdentityRight(UM);
    MulAssoc(G.Up, vt, V);
    MulIdentityRight(G.Up);
    MulAssoc(u, Transpose(G.Vp), V);
    TransposeMul(vt, G.Vp);
    TransposeZeros(F.k, F.k);
    MulZerosRight(u, F.k);
    AddZeros(Add(UM, G.Up));
  }

  /** The three terms of `to_ambient`, transposed and multiplied by U. */
  lemma {:induction false} FirstTermTransposeTimesU(F: Manifold, X: Point, G: TangentVector)
    requires IsPoint(F, X) && VectorShape(F, G)
    ensures Mul(Transpose(Mul(Mul(X.u, G.M), X.vt)), X.u) == Mul(Transpose(X.vt), Transpose(G.M))
  {
    var u, vt, V, MT := X.u, X.vt, Transpose(X.vt), Transpose(G.M);
    TransposeMul(Mul(u, G.M), vt);
    TransposeMul(u, G.M);
    MulAssoc(V, Mul(MT, Transpose(u)), u);
    MulAssoc(MT, Transpose(u), u);
    MulIdentityRight(MT);
  }

  lemma {:induction false} SecondTermTransposeTimesU(F: Manifold, X: Point, G: TangentVector)
    requires IsPoint(F, X) && VectorShape(F, G) && IsTangent(F, X, G)
    ensures Mul(Transpose(Mul(G.Up, X.vt)), X.u) == Zeros(F.n, F.k)
  {
    var u, vt, V := X.u, X.vt, Transpose(X.vt);
    TransposeMul(G.Up, vt);
    MulAssoc(V, Transpose(G.Up), u);
    TransposeMul(Transpose(u), G.Up);
    TransposeTranspose(u);
    TransposeZeros(F.k, F.k);
    MulZerosRight(V, F.k);
  }

  lemma {:induction false} ThirdTermTransposeTimesU(F: Manifold, X: Point, G: TangentVector)
    requires IsPoint(F, X) && VectorShape(F, G)
    ensures Mul(Transpose(Mul(X.u, Transpose(G.Vp))), X.u) == G.Vp
  {
    var u := X.u;
    TransposeMul(u, Transpose(G.Vp));
    TransposeTranspose(G.Vp);
    MulAssoc(G.Vp, Transpose(u), u);
    MulIdentityRight(G.Vp);
  }

  /** Z^T U for the ambient form of a tangent vector is Vt^T M^T + Vp. */
  lemma {:induction false} ToAmbientTransposeTimesU(F: Manifold, X: Point, G: TangentVector)
    requires IsPoint(F, X) && VectorShape(F, G) && IsTangent(F, X, G)
    ensures Mul(Transpose(ToAmbient(F, X, G)), X.u) == Add(Mul(Transpose(X.vt), Transpose(G.M)), G.Vp)
  {
    var u := X.u;
    var P1, P2, P3 := Mul(Mul(u, G.M), X.vt), Mul(G.Up, X.vt), Mul(u, Transpose(G.Vp));
    TransposeAdd(Add(P1, P2), P3);
    TransposeAdd(P1, P2);
    MulAddRight(Add(Transpose(P1), Transpose(P2)), Transpose(P3), u);
    MulAddRight(Transpose(P1), Transpose(P2), u);
    FirstTermTransposeTimesU(F, X, G);
    SecondTermTransposeTimesU(F, X, G);
    ThirdTermTransposeTimesU(F, X, G);
    AddZeros(Mul(Transpose(X.vt), Transpose(G.M)));
  }

  /** `proj` recovers a tangent vector from the matrix it stands for. */
  lemma {:induction false} ProjToAmbient(F: Manifold, X: Point, G: TangentVector)
    requires IsPoint(F, X) && VectorShape(F, G) && IsTangent(F, X, G)
    ensures Proj(F, X, Dense(ToAmbient(F, X, G))) == G
  {
    var u, V := X.u, Transpose(X.vt);
    var UM := Mul(u, G.M);
    ToAmbientTimesV(F, X, G);
    ToAmbientTransposeTimesU(F, X, G);
    MulAddLeft(Transpose(u), UM, G.Up);
    MulAssoc(Transpose(u), u, G.M);
    MulIdentityLeft(G.M);
    AddZeros(G.M);
    AddSubCancel(UM, G.Up);
    AddSubCancel(Mul(V, Transpose(G.M)), G.Vp);
  }

  /** Read on the ambient matrices, `proj` fixes exactly the tangent vectors. */
  lemma {:induction false} ProjFixedIff(F: Manifold, X: Point, G: TangentVector)
    requires IsPoint(F, X) && VectorShape(F, G)
    ensures Proj(F, X, Dense(ToAmbient(F, X, G))) == G <==> IsTangent(F, X, G)
  {
    ProjTangent(F, X, Dense(ToAmbient(F, X, G)));
    if IsTangent(F, X, G) {
      ProjToAmbient(F, X, G);
    }
  }

  /** Projecting the ambient form of a projection changes nothing. */
  lemma {:induction false} ProjIdempotent(F: Manifold, X: Point, Z: Ambient)
    requires IsPoint(F, X) && AmbientShape(F, Z)
    ensures Proj(F, X, Dense(ToAmbient(F, X, Proj(F, X, Z)))) == Proj(F, X, Z)
  {
    ProjTangent(F, X, Z);
    ProjToAmbient(F, X, Proj(F, X, Z));
  }

  // ---------------------------------------------------------------------
  // Transport

  /** `transp(X1, X2, G)`: project the ambient form of G at X1 onto the
      tangent space at X2. */
  function Transp(F: Manifold, X1: Point, X2: Point, G: TangentVector): (H: TangentVector)
    requires PointShape(F, X1) && PointShape(F, X2) && VectorShape(F, G)
    ensures VectorShape(F, H)
  {
    Proj(F, X2, Tangent2Ambient(F, X1, G))
  }

  /** Transport lands in the tangent space at X2. */
  lemma {:induction false} TranspTangent(F: Manifold, X1: Point, X2: Point, G: TangentVector)
    requires PointShape(F, X1) && IsPoint(F, X2) && VectorShape(F, G)
    ensures IsTangent(F, X2, Transp(F, X1, X2, G))
  {
    ProjTangent(F, X2, Tangent2Ambient(F, X1, G));
  }

  /** Transport is the projection of the dense matrix G stands for at X1. */
  lemma {:induction false} TranspDense(F: Manifold, X1: Point, X2: Point, G: TangentVector)
    requires PointShape(F, X1) && PointShape(F, X2) && VectorShape(F, G)
    ensures Transp(F, X1, X2, G) == Proj(F, X2, Dense(ToAmbient(F, X1, G)))
  {
    ProjFactored(F, X2, Tangent2Ambient(F, X1, G));
    Tangent2AmbientExpand(F, X1, G);
  }

  /** Transport from a point to itself leaves a tangent vector in place. */
  lemma {:induction false} TranspSelf(F: Manifold, X: Point, G: TangentVector)
    requires IsPoint(F, X) && VectorShape(F, G) && IsTangent(F, X, G)
    ensures Transp(F, X, X, G) == G
  {
    TranspDense(F, X, X, G);
    ProjToAmbient(F, X, G);
  }

  /** The middle factor `tangent2ambient` builds is the identity, so the
      uncorrected `_apply_ambient_transpose` is right on it and `transp`
      computes the same with either. */
  lemma {:induction false} TranspAsWritten(F: Manifold, X1: Point, X2: Point, G: TangentVector)
    requires PointShape(F, X1) && PointShape(F, X2) && VectorShape(F, G)
    ensures ApplyAmbientTransposeAsWritten(F, Tangent2Ambient(F, X1, G), X2.u)
         == ApplyAmbientTranspose(F, Tangent2Ambient(F, X1, G), X2.u)
    ensures ProjAsWritten(F, X2, Tangent2Ambient(F, X1, G)) == Transp(F, X1, X2, G)
  {
    var Z := Tangent2Ambient(F, X1, G);
    assert IsSymmetric(Z.Z1);
    AsWrittenAgreesWhenSymmetric(F, Z, X2.u);
    ProjAsWrittenAgrees(F, X2, Z);
  }

  // ---------------------------------------------------------------------
  // `proj` is the orthogonal projection

  /** <proj(X, E).Up, Up> == <E Vt^T, Up> for Up with U^T Up == 0. */
  lemma {:induction false} ProjUpPairing(F: Manifold, X: Point, E: Matrix, G: TangentVector)
    requires PointShape(F, X) && IsMatrix(E, F.m, F.n) && VectorShape(F, G) && IsTangent(F, X, G)
    ensures Frobenius(Proj(F, X, Dense(E)).Up, G.Up) == Frobenius(Mul(E, Transpose(X.vt)), G.Up)
  {
    var m, k, u := F.m, F.k, X.u;
    var ZV := Mul(E, Transpose(X.vt));
    var UtZV := Mul(Transpose(u), ZV);
    FrobeniusSub(ZV, Mul(u, UtZV), G.Up, m, k);
    FrobeniusMulLeft(u, UtZV, G.Up, m, k, k);
    FrobeniusSymmetric(UtZV, Zeros(k, k), k, k);
    FrobeniusZeros(k, k, UtZV);
  }

  /** <proj(X, E).Vp, Vp> == <U, E Vp> for Vp with Vt Vp == 0. */
  lemma {:induction false} ProjVpPairing(F: Manifold, X: Point, E: Matrix, G: TangentVector)
    requires PointShape(F, X) && IsMatrix(E, F.m, F.n) && VectorShape(F, G) && IsTangent(F, X, G)
    ensures Frobenius(Proj(F, X, Dense(E)).Vp, G.Vp) == Frobenius(X.u, Mul(E, G.Vp))
  {
    var m, n, k, u, vt := F.m, F.n, F.k, X.u, X.vt;
    var V := Transpose(vt);
    var W := Transpose(Mul(Transpose(u), Mul(E, V)));
    var ZtU := Mul(Transpose(E), u);
    FrobeniusSub(ZtU, Mul(V, W), G.Vp, n, k);
    FrobeniusMulLeft(V, W, G.Vp, n, k, k);
    TransposeTranspose(vt);
    FrobeniusSymmetric(W, Zeros(k, k), k, k);
    FrobeniusZeros(k, k, W);
    FrobeniusMulLeft(Transpose(E), u, G.Vp, n, m, k);
    TransposeTranspose(E);
  }

  /** <U M Vt, E> == <U^T E Vt^T, M>. */
  lemma {:induction false} FirstTermPairing(F: Manifold, X: Point, E: Matrix, G: TangentVector)
    requires PointShape(F, X) && IsMatrix(E, F.m, F.n) && VectorShape(F, G)
    ensures Frobenius(Mul(Mul(X.u, G.M), X.vt), E)
         == Frobenius(Mul(Transpose(X.u), Mul(E, Transpose(X.vt))), G.M)
  {
    var m, n, k, u := F.m, F.n, F.k, X.u;
    var ZV := Mul(E, Transpose(X.vt));
    FrobeniusMulRight(Mul(u, G.M), X.vt, E, m, k, n);
    FrobeniusMulLeft(u, G.M, ZV, m, k, k);
    FrobeniusSymmetric(G.M, Mul(Transpose(u), ZV), k, k);
  }

  /** <Up Vt, E> == <E Vt^T, Up>. */
  lemma {:induction false} SecondTermPairing(F: Manifold, X: Point, E: Matrix, G: TangentVector)
    requires PointShape(F, X) && IsMatrix(E, F.m, F.n) && VectorShape(F, G)
    ensures Frobenius(Mul(G.Up, X.vt), E) == Frobenius(Mul(E, Transpose(X.vt)), G.Up)
  {
    FrobeniusMulRight(G.Up, X.vt, E, F.m, F.k, F.n);
    FrobeniusSymmetric(G.Up, Mul(E, Transpose(X.vt)), F.m, F.k);
  }

  /** <U Vp^T, E> == <U, E Vp>. */
  lemma {:induction false} ThirdTermPairing(F: Manifold, X: Point, E: Matrix, G: TangentVector)
    requires PointShape(F, X) && IsMatrix(E, F.m, F.n) && VectorShape(F, G)
    ensures Frobenius(Mul(X.u, Transpose(G.Vp)), E) == Frobenius(X.u, Mul(E, G.Vp))
  {
    FrobeniusMulRight(X.u, Transpose(G.Vp), E, F.m, F.k, F.n);
    TransposeTranspose(G.Vp);
  }

  /** <E, to_ambient(G)> split over the three terms of `to_ambient`. */
  lemma {:induction false} ToAmbientPairing(F: Manifold, X: Point, E: Matrix, G: TangentVector)
    requires PointShape(F, X) && IsMatrix(E, F.m, F.n) && VectorShape(F, G)
    ensures Frobenius(E, ToAmbient(F, X, G))
         == Frobenius(Mul(E, Transpose(X.vt)), G.Up)
          + Frobenius(Mul(Transpose(X.u), Mul(E, Transpose(X.vt))), G.M)
          + Frobenius(X.u, Mul(E, G.Vp))
  {
    var m, n := F.m, F.n;
    var T1, T2, T3 := Mul(Mul(X.u, G.M), X.vt), Mul(G.Up, X.vt), Mul(X.u, Transpose(G.Vp));
    var T12 := Add(T1, T2);
    FrobeniusSymmetric(E, ToAmbient(F, X, G), m, n);
    FrobeniusAdd(T12, T3, ToAmbient(F, X, G), E, m, n);
    FrobeniusAdd(T1, T2, T12, E, m, n);
    FirstTermPairing(F, X, E, G);
    SecondTermPairing(F, X, E, G);
    ThirdTermPairing(F, X, E, G);
  }

  /** `proj` is the orthogonal projection onto the tangent space: for every
      tangent G, the inner product of proj(X, Z) with G is the Frobenius
      product of Z with the matrix G stands for. Only the shapes of X are
      needed, not the orthonormality of U and Vt. */
  lemma {:induction false} ProjOrthogonal(F: Manifold, X: Point, Z: Ambient, G: TangentVector)
    requires PointShape(F, X) && AmbientShape(F, Z) && VectorShape(F, G) && IsTangent(F, X, G)
    ensures Inner(F, X, Proj(F, X, Z), G) == Frobenius(Expand(F, Z), ToAmbient(F, X, G))
  {
    var E := Expand(F, Z);
    ProjFactored(F, X, Z);
    ProjUpPairing(F, X, E, G);
    ProjVpPairing(F, X, E, G);
    ToAmbientPairing(F, X, E, G);
  }

  /** On tangent vectors at a point, `inner` is the Frobenius product of the
      matrices they stand for: the metric is the one induced by the
      embedding. */
  lemma {:induction false} InnerAmbient(F: Manifold, X: Point, G: TangentVector, H: TangentVector)
    requires IsPoint(F, X) && VectorShape(F, G) && VectorShape(F, H)
    requires IsTangent(F, X, G) && IsTangent(F, X, H)
    ensures Inner(F, X, G, H) == Frobenius(ToAmbient(F, X, G), ToAmbient(F, X, H))
  {
    ProjToAmbient(F, X, G);
    ProjOrthogonal(F, X, Dense(ToAmbient(F, X, G)), H);
  }

  // ---------------------------------------------------------------------
  // Riemannian gradient

  /** The Euclidean gradient with respect to the factors (U, s, Vt): dU is
      m x k, dS has k entries and dVt is k x n. */
  datatype EGrad = EGrad(dU: Matrix, dS: seq<real>, dVt: Matrix)

  predicate EGradShape(F: Manifold, e: EGrad)
  {
    IsMatrix(e.dU, F.m, F.k) && |e.dS| == F.k && IsMatrix(e.dVt, F.k, F.n)
  }

  /** No singular value is 0 and no two have the same square: what the
      divisions in `egrad2rgrad` need. */
  predicate Separated(s: seq<real>)
  {
    (forall j :: 0 <= j < |s| ==> s[j] != 0.0)
    && forall i, j :: 0 <= i < |s| && 0 <= j < |s| && i != j ==> s[i] * s[i] != s[j] * s[j]
  }

  /** The weights f = 1 / (s_j^2 - s_i^2 + I_ij) of `egrad2rgrad`: 1 on the
      diagonal and the inverse of s_j^2 - s_i^2 off it. */
  function Weights(s: seq<real>): (f: Matrix)
    requires Separated(s)
    ensures IsMatrix(f, |s|, |s|)
    ensures forall i :: 0 <= i < |s| ==> f[i][i] == 1.0
    ensures forall i, j :: 0 <= i < |s| && 0 <= j < |s| && i != j ==>
      f[i][j] * (s[j] * s[j] - s[i] * s[i]) == 1.0
  {
    var E := Identity(|s|);
    seq(|s|, i requires 0 <= i < |s| =>
      seq(|s|, j requires 0 <= j < |s| => 1.0 / (s[j] * s[j] - s[i] * s[i] + E[i][j])))
  }

  /** `egrad2rgrad`: Up = (dU - U U^T dU) / s, Vp = (dVt^T - Vt^T Vt dVt^T) / s
      and M = f * (A - A^T) * s + s[:, None] * f * (B - B^T) + diag(dS), with
      A = U^T dU and B = Vt dVt^T. */
  function EGrad2RGrad(F: Manifold, X: Point, e: EGrad): (G: TangentVector)
    requires PointShape(F, X) && EGradShape(F, e) && Separated(X.s)
    ensures VectorShape(F, G)
  {
    var u, s, vt := X.u, X.s, X.vt;
    var utdu := Mul(Transpose(u), e.dU);
    var Up := DivCols(Sub(e.dU, Mul(u, utdu)), s);
    var vtdv := Mul(vt, Transpose(e.dVt));
    var Vp := DivCols(Sub(Transpose(e.dVt), Mul(Transpose(vt), vtdv)), s);
    TangentVector(Up, Middle(Weights(s), utdu, vtdv, s, e.dS), Vp)
  }

  /** The middle factor of `egrad2rgrad`,
      f * (A - A^T) * s + s[:, None] * f * (B - B^T) + diag(dS), entry by
      entry: the trailing `* s` scales column j by s_j, and `s[:, None] *`
      scales row i by s_i. */
  function Middle(f: Matrix, A: Matrix, B: Matrix, s: seq<real>, dS: seq<real>): (M: Matrix)
    requires IsMatrix(f, |s|, |s|) && IsMatrix(A, |s|, |s|) && IsMatrix(B, |s|, |s|) && |dS| == |s|
    ensures IsMatrix(M, |s|, |s|)
  {
    seq(|s|, i requires 0 <= i < |s| => seq(|s|, j requires 0 <= j < |s| =>
      f[i][j] * (A[i][j] - A[j][i]) * s[j] + s[i] * f[i][j] * (B[i][j] - B[j][i])
      + (if i == j then dS[i] else 0.0)))
  }

  /** The antisymmetric terms of the middle factor vanish on its diagonal. */
  lemma {:induction false} MiddleDiagonal(f: Matrix, A: Matrix, B: Matrix, s: seq<real>, dS: seq<real>)
    requires IsMatrix(f, |s|, |s|) && IsMatrix(A, |s|, |s|) && IsMatrix(B, |s|, |s|) && |dS| == |s|
    ensures Diagonal(Middle(f, A, B, s, dS)) == dS
  {
    var M := Middle(f, A, B, s, dS);
    forall i | 0 <= i < |s|
      ensures M[i][i] == dS[i]
    {
      ZeroDifference(f[i][i], A[i][i], s[i]);
      ZeroDifference(s[i] * f[i][i], B[i][i], 1.0);
    }
  }

  /** x (a - a) y == 0 */
  lemma {:induction false} ZeroDifference(x: real, a: real, y: real)
    ensures x * (a - a) * y == 0.0
  {
  }

  /** x (a1 - a2) sj + si x (b1 - b2) == x (sj (a1 - a2) + si (b1 - b2)) */
  lemma {:induction false} CollectWeight(x: real, a1: real, a2: real, b1: real, b2: real, si: real, sj: real)
    ensures x * (a1 - a2) * sj + si * x * (b1 - b2) == x * (sj * (a1 - a2) + si * (b1 - b2))
  {
  }

  /** Off the diagonal, the middle factor is the weight times
      s_j (A_ij - A_ji) + s_i (B_ij - B_ji). */
  lemma {:induction false} MiddleOffDiagonal(f: Matrix, A: Matrix, B: Matrix, s: seq<real>, dS: seq<real>, i: int, j: int)
    requires IsMatrix(f, |s|, |s|) && IsMatrix(A, |s|, |s|) && IsMatrix(B, |s|, |s|) && |dS| == |s|
    requires 0 <= i < |s| && 0 <= j < |s| && i != j
    ensures Middle(f, A, B, s, dS)[i][j]
         == f[i][j] * (s[j] * (A[i][j] - A[j][i]) + s[i] * (B[i][j] - B[j][i]))
  {
    CollectWeight(f[i][j], A[i][j], A[j][i], B[i][j], B[j][i], s[i], s[j]);
  }

  /** m == x c and x d == 1 give m d == c. */
  lemma {:induction false} CancelWeight(m: real, x: real, c: real, d: real)
    requires m == x * c && x * d == 1.0
    ensures m * d == c
  {
    calc {
      m * d;
      (x * c) * d;
      (x * d) * c;
      c;
    }
  }

  /** With weights that invert s_j^2 - s_i^2, the middle factor solves
      M_ij (s_j^2 - s_i^2) == s_j (A_ij - A_ji) + s_i (B_ij - B_ji). */
  lemma {:induction false} MiddleSolves(f: Matrix, A: Matrix, B: Matrix, s: seq<real>, dS: seq<real>, i: int, j: int)
    requires IsMatrix(f, |s|, |s|) && IsMatrix(A, |s|, |s|) && IsMatrix(B, |s|, |s|) && |dS| == |s|
    requires 0 <= i < |s| && 0 <= j < |s| && i != j
    requires f[i][j] * (s[j] * s[j] - s[i] * s[i]) == 1.0
    ensures Middle(f, A, B, s, dS)[i][j] * (s[j] * s[j] - s[i] * s[i])
         == s[j] * (A[i][j] - A[j][i]) + s[i] * (B[i][j] - B[j][i])
  {
    MiddleOffDiagonal(f, A, B, s, dS, i, j);
    CancelWeight(Middle(f, A, B, s, dS)[i][j], f[i][j],
      s[j] * (A[i][j] - A[j][i]) + s[i] * (B[i][j] - B[j][i]), s[j] * s[j] - s[i] * s[i]);
  }

  /** At a point, the Riemannian gradient is tangent. */
  lemma {:induction false} EGrad2RGradTangent(F: Manifold, X: Point, e: EGrad)
    requires IsPoint(F, X) && EGradShape(F, e) && Separated(X.s)
    ensures IsTangent(F, X, EGrad2RGrad(F, X, e))
  {
    var u, s, vt := X.u, X.s, X.vt;
    var V, dV := Transpose(vt), Transpose(e.dVt);
    var Yu := Sub(e.dU, Mul(u, Mul(Transpose(u), e.dU)));
    var Yv := Sub(dV, Mul(V, Mul(vt, dV)));
    ComplementOrthogonal(u, Transpose(u), e.dU);
    MulDivCols(Transpose(u), Yu, s);
    TransposeTranspose(vt);
    ComplementOrthogonal(V, vt, dV);
    MulDivCols(vt, Yv, s);
    DivColsZeros(F.k, s);
  }

  /** The middle factor's diagonal is dS: the antisymmetric terms vanish there. */
  lemma {:induction false} EGrad2RGradDiagonal(F: Manifold, X: Point, e: EGrad)
    requires PointShape(F, X) && EGradShape(F, e) && Separated(X.s)
    ensures Diagonal(EGrad2RGrad(F, X, e).M) == e.dS
  {
    MiddleDiagonal(Weights(X.s), Mul(Transpose(X.u), e.dU), Mul(X.vt, Transpose(e.dVt)), X.s, e.dS);
  }

  /** Off the diagonal, the middle factor of the Riemannian gradient solves
      M_ij (s_j^2 - s_i^2) == s_j (A_ij - A_ji) + s_i (B_ij - B_ji), where
      A = U^T dU and B = Vt dVt^T: the equation the weights f are built to solve. */
  lemma {:induction false} WeightsSolve(s: seq<real>, A: Matrix, B: Matrix, dS: seq<real>, i: int, j: int)
    requires Separated(s) && IsMatrix(A, |s|, |s|) && IsMatrix(B, |s|, |s|) && |dS| == |s|
    requires 0 <= i < |s| && 0 <= j < |s| && i != j
    ensures Middle(Weights(s), A, B, s, dS)[i][j] * (s[j] * s[j] - s[i] * s[i])
         == s[j] * (A[i][j] - A[j][i]) + s[i] * (B[i][j] - B[j][i])
  {
    MiddleSolves(Weights(s), A, B, s, dS, i, j);
  }

  // ---------------------------------------------------------------------
  // `egrad2rgrad` is the Riemannian gradient

  /** The triple `egrad2rgrad` receives for a cost written as g(U diag(s) Vt)
      whose gradient in the ambient space is E: by the chain rule,
      dU = E Vt^T diag(s), dS = diag(U^T E Vt^T) and dVt = diag(s) U^T E. */
  function FactorGradient(F: Manifold, X: Point, E: Matrix): (e: EGrad)
    requires PointShape(F, X) && IsMatrix(E, F.m, F.n)
    ensures EGradShape(F, e)
  {
    var EV := Mul(E, Transpose(X.vt));
    EGrad(MulCols(EV, X.s), Diagonal(Mul(Transpose(X.u), EV)), MulRows(X.s, Mul(Transpose(X.u), E)))
  }

  /** With P = U^T E Vt^T, the middle factor of proj(X, E), the products
      `egrad2rgrad` forms from the factor gradient are U^T dU = P diag(s)
      and Vt dVt^T = P^T diag(s), and dVt^T = E^T U diag(s). */
  lemma {:induction false} FactorGradientProducts(F: Manifold, X: Point, E: Matrix)
    requires PointShape(F, X) && IsMatrix(E, F.m, F.n)
    ensures Mul(Transpose(X.u), FactorGradient(F, X, E).dU) == MulCols(Proj(F, X, Dense(E)).M, X.s)
    ensures Transpose(FactorGradient(F, X, E).dVt) == MulCols(Mul(Transpose(E), X.u), X.s)
    ensures Mul(X.vt, Transpose(FactorGradient(F, X, E).dVt))
         == MulCols(Transpose(Proj(F, X, Dense(E)).M), X.s)
  {
    var u, s, vt := X.u, X.s, X.vt;
    var EV := Mul(E, Transpose(vt));
    var UtE, EtU := Mul(Transpose(u), E), Mul(Transpose(E), u);
    MulMulCols(Transpose(u), EV, s);
    TransposeMulRows(s, UtE);
    TransposeMul(Transpose(u), E);
    TransposeTranspose(u);
    ProjMTranspose(F, X, Dense(E));
    MulMulCols(vt, EtU, s);
  }

  /** f (a1 - a2) sj + si f (b1 - b2) == p for a1 = p sj, a2 = q si,
      b1 = q sj, b2 = p si and f (sj^2 - si^2) == 1 */
  lemma {:induction false} WeightedEntry(f: real, p: real, q: real, si: real, sj: real,
                                         a1: real, a2: real, b1: real, b2: real)
    requires f * (sj * sj - si * si) == 1.0
    requires a1 == p * sj && a2 == q * si && b1 == q * sj && b2 == p * si
    ensures f * (a1 - a2) * sj + si * f * (b1 - b2) == p
  {
    calc {
      f * (a1 - a2) * sj + si * f * (b1 - b2);
      f * ((p * sj - q * si) * sj + si * (q * sj - p * si));
      { assert (p * sj - q * si) * sj + si * (q * sj - p * si) == p * (sj * sj - si * si); }
      f * (p * (sj * sj - si * si));
      p * (f * (sj * sj - si * si));
    }
  }

  /** The diagonal of `MiddleRecovers`: dS = diag(P). */
  lemma {:induction false} MiddleDiagonalRecovers(s: seq<real>, P: Matrix, i: int)
    requires Separated(s) && |s| > 0 && IsMatrix(P, |s|, |s|) && 0 <= i < |s|
    ensures Middle(Weights(s), MulCols(P, s), MulCols(Transpose(P), s), s, Diagonal(P))[i][i] == P[i][i]
  {
    var f, A, B := Weights(s), MulCols(P, s), MulCols(Transpose(P), s);
    MiddleDiagonal(f, A, B, s, Diagonal(P));
    DiagonalEntry(Middle(f, A, B, s, Diagonal(P)), P, i);
  }

  /** An off-diagonal entry of `MiddleRecovers`. */
  lemma {:induction false} MiddleOffRecovers(s: seq<real>, P: Matrix, i: int, j: int)
    requires Separated(s) && |s| > 0 && IsMatrix(P, |s|, |s|)
    requires 0 <= i < |s| && 0 <= j < |s| && i != j
    ensures Middle(Weights(s), MulCols(P, s), MulCols(Transpose(P), s), s, Diagonal(P))[i][j] == P[i][j]
  {
    ScaledEntries(s, P, i, j);
    MiddleOffDiagonalRecovers(Weights(s), MulCols(P, s), MulCols(Transpose(P), s), s, Diagonal(P), P[i][j], P[j][i], i, j);
  }

  /** Matrices with the same diagonal agree on it. */
  lemma {:induction false} DiagonalEntry(M: Matrix, P: Matrix, i: int)
    requires Rect(M) && Rect(P) && |M| == Cols(M) == |P| == Cols(P) && 0 <= i < |M|
    requires Diagonal(M) == Diagonal(P)
    ensures M[i][i] == P[i][i]
  {
    assert M[i][i] == Diagonal(M)[i];
  }

  /** The entries of P diag(s), P^T diag(s) and the weights that
      `MiddleOffDiagonalRecovers` reads. */
  lemma {:induction false} ScaledEntries(s: seq<real>, P: Matrix, i: int, j: int)
    requires Separated(s) && |s| > 0 && IsMatrix(P, |s|, |s|)
    requires 0 <= i < |s| && 0 <= j < |s| && i != j
    ensures MulCols(P, s)[i][j] == P[i][j] * s[j] && MulCols(P, s)[j][i] == P[j][i] * s[i]
    ensures MulCols(Transpose(P), s)[i][j] == P[j][i] * s[j]
    ensures MulCols(Transpose(P), s)[j][i] == P[i][j] * s[i]
    ensures Weights(s)[i][j] * (s[j] * s[j] - s[i] * s[i]) == 1.0
  {
  }

  /** One off-diagonal entry of `MiddleRecovers`, from the entries it reads. */
  lemma {:induction false} MiddleOffDiagonalRecovers(f: Matrix, A: Matrix, B: Matrix, s: seq<real>, dS: seq<real>,
                                                     p: real, q: real, i: int, j: int)
    requires IsMatrix(f, |s|, |s|) && IsMatrix(A, |s|, |s|) && IsMatrix(B, |s|, |s|) && |dS| == |s|
    requires 0 <= i < |s| && 0 <= j < |s| && i != j
    requires f[i][j] * (s[j] * s[j] - s[i] * s[i]) == 1.0
    requires A[i][j] == p * s[j] && A[j][i] == q * s[i] && B[i][j] == q * s[j] && B[j][i] == p * s[i]
    ensures Middle(f, A, B, s, dS)[i][j] == p
  {
    WeightedEntry(f[i][j], p, q, s[i], s[j], A[i][j], A[j][i], B[i][j], B[j][i]);
  }

  /** Fed with A = P diag(s), B = P^T diag(s) and dS = diag(P), the middle
      factor of `egrad2rgrad` gives P back: the weights undo the scaling. */
  lemma {:induction false} MiddleRecovers(s: seq<real>, P: Matrix)
    requires Separated(s) && |s| > 0 && IsMatrix(P, |s|, |s|)
    ensures Middle(Weights(s), MulCols(P, s), MulCols(Transpose(P), s), s, Diagonal(P)) == P
  {
    var M := Middle(Weights(s), MulCols(P, s), MulCols(Transpose(P), s), s, Diagonal(P));
    forall i, j | 0 <= i < |s| && 0 <= j < |s|
      ensures M[i][j] == P[i][j]
    {
      if i == j {
        MiddleDiagonalRecovers(s, P, i);
      } else {
        MiddleOffRecovers(s, P, i, j);
      }
    }
    Ext(M, P, |s|, |s|);
  }

  /** `egrad2rgrad` maps the factor gradient of an ambient gradient E to
      proj(X, E), the orthogonal projection of E onto the tangent space.
      Only the shapes of X are needed, not orthonormality. */
  lemma {:induction false} EGrad2RGradChainRule(F: Manifold, X: Point, E: Matrix)
    requires PointShape(F, X) && IsMatrix(E, F.m, F.n) && Separated(X.s)
    ensures EGrad2RGrad(F, X, FactorGradient(F, X, E)) == Proj(F, X, Dense(E))
  {
    var u, s := X.u, X.s;
    var V := Transpose(X.vt);
    var P := Proj(F, X, Dense(E)).M;
    var EV, EtU := Mul(E, V), Mul(Transpose(E), u);
    FactorGradientProducts(F, X, E);
    MulMulCols(u, P, s);
    DivColsSubMulCols(EV, Mul(u, P), s);
    MulMulCols(V, Transpose(P), s);
    DivColsSubMulCols(EtU, Mul(V, Transpose(P)), s);
    MiddleRecovers(s, P);
  }

  /** `egrad2rgrad` returns the Riemannian gradient: paired with any tangent
      vector H, it gives the derivative of the cost along the matrix H stands
      for, <E, U M Vt + Up Vt + U Vp^T>. */
  lemma {:induction false} EGrad2RGradIsGradient(F: Manifold, X: Point, E: Matrix, H: TangentVector)
    requires PointShape(F, X) && IsMatrix(E, F.m, F.n) && Separated(X.s)
    requires VectorShape(F, H) && IsTangent(F, X, H)
    ensures Inner(F, X, EGrad2RGrad(F, X, FactorGradient(F, X, E)), H) == Frobenius(E, ToAmbient(F, X, H))
  {
    EGrad2RGradChainRule(F, X, E);
    ProjOrthogonal(F, X, Dense(E), H);
  }

  // ---------------------------------------------------------------------
  // Re-projecting a triple

  /** `_tangent(X, Z)`: Up - U U^T Up and Vp - Vt^T Vt Vp, with M kept. */
  function Tangent(F: Manifold, X: Point, Z: TangentVector): (G: TangentVector)
    requires PointShape(F, X) && VectorShape(F, Z)
    ensures VectorShape(F, G) && G.M == Z.M
  {
    var V := Transpose(X.vt);
    TangentVector(Sub(Z.Up, Mul(Mul(X.u, Transpose(X.u)), Z.Up)), Z.M,
                  Sub(Z.Vp, Mul(Mul(V, X.vt), Z.Vp)))
  }

  /** The two parts of `_tangent`, with the products regrouped. */
  lemma {:induction false} TangentRegroup(F: Manifold, X: Point, Z: TangentVector)
    requires PointShape(F, X) && VectorShape(F, Z)
    ensures Tangent(F, X, Z).Up == Sub(Z.Up, Mul(X.u, Mul(Transpose(X.u), Z.Up)))
    ensures Tangent(F, X, Z).Vp == Sub(Z.Vp, Mul(Transpose(X.vt), Mul(X.vt, Z.Vp)))
  {
    MulAssoc(X.u, Transpose(X.u), Z.Up);
    MulAssoc(Transpose(X.vt), X.vt, Z.Vp);
  }

  /** At a point, `_tangent` returns a tangent vector. */
  lemma {:induction false} TangentIsTangent(F: Manifold, X: Point, Z: TangentVector)
    requires IsPoint(F, X) && VectorShape(F, Z)
    ensures IsTangent(F, X, Tangent(F, X, Z))
  {
    TangentRegroup(F, X, Z);
    ComplementOrthogonal(X.u, Transpose(X.u), Z.Up);
    TransposeTranspose(X.vt);
    ComplementOrthogonal(Transpose(X.vt), X.vt, Z.Vp);
  }

  /** `_tangent` leaves a tangent vector unchanged (orthonormality not needed). */
  lemma {:induction false} TangentFixesTangent(F: Manifold, X: Point, Z: TangentVector)
    requires PointShape(F, X) && VectorShape(F, Z) && IsTangent(F, X, Z)
    ensures Tangent(F, X, Z) == Z
  {
    TangentRegroup(F, X, Z);
    ComplementFixes(X.u, Transpose(X.u), Z.Up);
    TransposeTranspose(X.vt);
    ComplementFixes(Transpose(X.vt), X.vt, Z.Vp);
  }

  /** At a point, `_tangent` fixes exactly the tangent vectors, and applying
      it twice is the same as applying it once. */
  lemma {:induction false} TangentFixedIff(F: Manifold, X: Point, Z: TangentVector)
    requires IsPoint(F, X) && VectorShape(F, Z)
    ensures Tangent(F, X, Z) == Z <==> IsTangent(F, X, Z)
    ensures Tangent(F, X, Tangent(F, X, Z)) == Tangent(F, X, Z)
  {
    TangentIsTangent(F, X, Z);
    TangentFixesTangent(F, X, Tangent(F, X, Z));
    if IsTangent(F, X, Z) {
      TangentFixesTangent(F, X, Z);
    }
  }

  // ---------------------------------------------------------------------
  // Inner product, zero vector and arithmetic on tangent vectors

  /** `inner`: the sum of the Frobenius products of the three components. */
  function Inner(F: Manifold, X: Point, G: TangentVector, H: TangentVector): (r: real)
    ensures G == H ==> r >= 0.0
  {
    FrobeniusNonNegative(G.Up);
    FrobeniusNonNegative(G.M);
    FrobeniusNonNegative(G.Vp);
    Frobenius(G.Up, H.Up) + Frobenius(G.M, H.M) + Frobenius(G.Vp, H.Vp)
  }

  lemma {:induction false} InnerSymmetric(F: Manifold, X: Point, G: TangentVector, H: TangentVector)
    requires VectorShape(F, G) && VectorShape(F, H)
    ensures Inner(F, X, G, H) == Inner(F, X, H, G)
  {
    FrobeniusSymmetric(G.Up, H.Up, F.m, F.k);
    FrobeniusSymmetric(G.M, H.M, F.k, F.k);
    FrobeniusSymmetric(G.Vp, H.Vp, F.n, F.k);
  }

  /** The inner product is positive definite: never negative, and 0 on
      the diagonal only for the zero vector. */
  lemma {:induction false} InnerNonNegative(F: Manifold, X: Point, G: TangentVector)
    ensures Inner(F, X, G, G) >= 0.0
    ensures VectorShape(F, G) && Inner(F, X, G, G) == 0.0 ==> G == ZeroVec(F, X)
  {
    FrobeniusNonNegative(G.Up);
    FrobeniusNonNegative(G.M);
    FrobeniusNonNegative(G.Vp);
    if VectorShape(F, G) && Inner(F, X, G, G) == 0.0 {
      FrobeniusDefinite(G.Up, F.m, F.k);
      FrobeniusDefinite(G.M, F.k, F.k);
      FrobeniusDefinite(G.Vp, F.n, F.k);
    }
  }

  /** The inner product is additive in its first argument (and, by
      symmetry, in its second). */
  lemma {:induction false} InnerAddVec(F: Manifold, X: Point, G: TangentVector, H: TangentVector, K: TangentVector)
    requires VectorShape(F, G) && VectorShape(F, H) && VectorShape(F, K)
    ensures Inner(F, X, AddVec(F, G, H), K) == Inner(F, X, G, K) + Inner(F, X, H, K)
  {
    var S := AddVec(F, G, H);
    FrobeniusAdd(G.Up, H.Up, S.Up, K.Up, F.m, F.k);
    FrobeniusAdd(G.M, H.M, S.M, K.M, F.k, F.k);
    FrobeniusAdd(G.Vp, H.Vp, S.Vp, K.Vp, F.n, F.k);
  }

  /** The inner product is homogeneous in its first argument (and, by
      symmetry, in its second). */
  lemma {:induction false} InnerScaleVec(F: Manifold, X: Point, c: real, G: TangentVector, K: TangentVector)
    requires VectorShape(F, G) && VectorShape(F, K)
    ensures Inner(F, X, ScaleVec(F, c, G), K) == c * Inner(F, X, G, K)
  {
    ScaledParts(F, c, G, K);
    InnerOfParts(F, X, c, G, ScaleVec(F, c, G), K);
  }

  /** `InnerScaleVec`, component by component. */
  lemma {:induction false} ScaledParts(F: Manifold, c: real, G: TangentVector, K: TangentVector)
    requires VectorShape(F, G)
    ensures Frobenius(ScaleVec(F, c, G).Up, K.Up) == c * Frobenius(G.Up, K.Up)
    ensures Frobenius(ScaleVec(F, c, G).M, K.M) == c * Frobenius(G.M, K.M)
    ensures Frobenius(ScaleVec(F, c, G).Vp, K.Vp) == c * Frobenius(G.Vp, K.Vp)
  {
    var S := ScaleVec(F, c, G);
    ScaledPart(c, G.Up, S.Up, K.Up, F.m, F.k);
    ScaledPart(c, G.M, S.M, K.M, F.k, F.k);
    ScaledPart(c, G.Vp, S.Vp, K.Vp, F.n, F.k);
  }

  /** One component of `InnerScaleVec`. */
  lemma {:induction false} ScaledPart(c: real, A: Matrix, B: Matrix, K: Matrix, r: nat, cols: nat)
    requires IsMatrix(A, r, cols) && B == Scale(c, A)
    ensures Frobenius(B, K) == c * Frobenius(A, K)
  {
    FrobeniusScale(c, A, B, K, r, cols);
  }

  /** Componentwise scaling of the Frobenius products scales the inner product. */
  lemma {:induction false} InnerOfParts(F: Manifold, X: Point, c: real, G: TangentVector, S: TangentVector, K: TangentVector)
    requires Frobenius(S.Up, K.Up) == c * Frobenius(G.Up, K.Up)
    requires Frobenius(S.M, K.M) == c * Frobenius(G.M, K.M)
    requires Frobenius(S.Vp, K.Vp) == c * Frobenius(G.Vp, K.Vp)
    ensures Inner(F, X, S, K) == c * Inner(F, X, G, K)
  {
    ScaleSum3(c, Frobenius(G.Up, K.Up), Frobenius(G.M, K.M), Frobenius(G.Vp, K.Vp), Inner(F, X, G, K),
              Frobenius(S.Up, K.Up), Frobenius(S.M, K.M), Frobenius(S.Vp, K.Vp));
  }

  /** x' + y' + z' == c s for s == x + y + z, x' == c x, y' == c y, z' == c z. */
  lemma {:induction false} ScaleSum3(c: real, x: real, y: real, z: real, s: real, x': real, y': real, z': real)
    requires s == x + y + z
    requires x' == c * x && y' == c * y && z' == c * z
    ensures x' + y' + z' == c * s
  {
  }

  /** `zerovec`: zero arrays of shapes (m, k), (k, k) and (n, k). */
  function ZeroVec(F: Manifold, X: Point): (G: TangentVector)
    ensures VectorShape(F, G)
    ensures G.Up == Zeros(F.m, F.k) && G.M == Zeros(F.k, F.k) && G.Vp == Zeros(F.n, F.k)
  {
    TangentVector(Zeros(F.m, F.k), Zeros(F.k, F.k), Zeros(F.n, F.k))
  }

  /** The zero vector is tangent, orthogonal to every vector, and stands
      for the zero matrix. */
  lemma {:induction false} ZeroVecProperties(F: Manifold, X: Point, H: TangentVector)
    requires PointShape(F, X)
    ensures IsTangent(F, X, ZeroVec(F, X))
    ensures Inner(F, X, ZeroVec(F, X), H) == 0.0
    ensures ToAmbient(F, X, ZeroVec(F, X)) == Zeros(F.m, F.n)
  {
    var m, n, k := F.m, F.n, F.k;
    MulZerosRight(Transpose(X.u), k);
    MulZerosRight(X.vt, k);
    FrobeniusZeros(m, k, H.Up);
    FrobeniusZeros(k, k, H.M);
    FrobeniusZeros(n, k, H.Vp);
    MulZerosRight(X.u, k);
    MulZerosLeft(m, X.vt);
    TransposeZeros(n, k);
    MulZerosRight(X.u, n);
    AddZeros(Zeros(m, n));
  }

  /** `G + H`, componentwise. */
  function AddVec(F: Manifold, G: TangentVector, H: TangentVector): (R: TangentVector)
    requires VectorShape(F, G) && VectorShape(F, H)
    ensures VectorShape(F, R)
  {
    TangentVector(Add(G.Up, H.Up), Add(G.M, H.M), Add(G.Vp, H.Vp))
  }

  /** `G - H`, componentwise. */
  function SubVec(F: Manifold, G: TangentVector, H: TangentVector): (R: TangentVector)
    requires VectorShape(F, G) && VectorShape(F, H)
    ensures VectorShape(F, R)
  {
    TangentVector(Sub(G.Up, H.Up), Sub(G.M, H.M), Sub(G.Vp, H.Vp))
  }

  /** `c * G`, componentwise. */
  function ScaleVec(F: Manifold, c: real, G: TangentVector): (R: TangentVector)
    requires VectorShape(F, G)
    ensures VectorShape(F, R)
  {
    TangentVector(Scale(c, G.Up), Scale(c, G.M), Scale(c, G.Vp))
  }

  /** `-G`, componentwise. */
  function NegVec(F: Manifold, G: TangentVector): (R: TangentVector)
    requires VectorShape(F, G)
    ensures VectorShape(F, R)
  {
    TangentVector(Neg(G.Up), Neg(G.M), Neg(G.Vp))
  }

  /** The sum of two tangent vectors is tangent. */
  lemma {:induction false} AddVecTangent(F: Manifold, X: Point, G: TangentVector, H: TangentVector)
    requires PointShape(F, X) && VectorShape(F, G) && VectorShape(F, H)
    requires IsTangent(F, X, G) && IsTangent(F, X, H)
    ensures IsTangent(F, X, AddVec(F, G, H))
  {
    MulAddLeft(Transpose(X.u), G.Up, H.Up);
    MulAddLeft(X.vt, G.Vp, H.Vp);
    AddZeros(Zeros(F.k, F.k));
  }

  /** The difference of two tangent vectors is tangent. */
  lemma {:induction false} SubVecTangent(F: Manifold, X: Point, G: TangentVector, H: TangentVector)
    requires PointShape(F, X) && VectorShape(F, G) && VectorShape(F, H)
    requires IsTangent(F, X, G) && IsTangent(F, X, H)
    ensures IsTangent(F, X, SubVec(F, G, H))
  {
    MulSubLeft(Transpose(X.u), G.Up, H.Up);
    MulSubLeft(X.vt, G.Vp, H.Vp);
    SubZeros(Zeros(F.k, F.k));
  }

  /** A multiple of a tangent vector is tangent. */
  lemma {:induction false} ScaleVecTangent(F: Manifold, X: Point, c: real, G: TangentVector)
    requires PointShape(F, X) && VectorShape(F, G) && IsTangent(F, X, G)
    ensures IsTangent(F, X, ScaleVec(F, c, G))
  {
    MulScaleRight(Transpose(X.u), c, G.Up);
    MulScaleRight(X.vt, c, G.Vp);
    ScaleZeros(c, F.k, F.k);
  }

  /** The negation of a tangent vector is tangent. */
  lemma {:induction false} NegVecTangent(F: Manifold, X: Point, G: TangentVector)
    requires PointShape(F, X) && VectorShape(F, G) && IsTangent(F, X, G)
    ensures IsTangent(F, X, NegVec(F, G))
  {
    MulNegRight(Transpose(X.u), G.Up);
    MulNegRight(X.vt, G.Vp);
    NegZeros(F.k, F.k);
  }

  /** G - G is the zero vector and G + 0 is G. */
  lemma {:induction false} AddVecZero(F: Manifold, X: Point, G: TangentVector)
    requires Valid(F) && VectorShape(F, G)
    ensures SubVec(F, G, G) == ZeroVec(F, X)
    ensures AddVec(F, G, ZeroVec(F, X)) == G
  {
    SubSelf(G.Up);
    SubSelf(G.M);
    SubSelf(G.Vp);
    AddZeros(G.Up);
    AddZeros(G.M);
    AddZeros(G.Vp);
  }
}

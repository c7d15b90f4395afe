/** The Stiefel manifold St(n, p)^k of k-tuples of n x p matrices with
    orthonormal columns, embedded in the Euclidean space of n x p matrices.
    A point or tangent vector is the list of its k blocks: one block when
    k == 1 (an n x p array) and k blocks otherwise (a k x n x p array). */
module Stiefel {
  import opened Errors
  import opened Sums
  import opened Matrices

  datatype Manifold = Manifold(n: nat, p: nat, k: nat)

  /** The parameters a constructed manifold always has. */
  predicate Valid(M: Manifold)
  {
    M.n >= M.p >= 1 && M.k >= 1
  }

  /** The message of the first parameter check. */
  function ShapeMessage(n: int, p: int): string
  {
    "Need n >= p >= 1. Values supplied were n = " + IntToString(n) + " and p = " + IntToString(p)
  }

  /** `Stiefel(n, p, k)`: the two parameter checks, in the order they are made. */
  function New(n: int, p: int, k: int): (r: Result<Manifold>)
    ensures r.Ok? <==> n >= p >= 1 && k >= 1
    ensures r.Ok? ==> r.value == Manifold(n, p, k) && Valid(r.value)
    ensures (n < p || p < 1) ==> r == Err(ValueError(ShapeMessage(n, p)))
    ensures n >= p >= 1 && k < 1 ==> r == Err(ValueError("Need k >= 1. Value supplied was k = " + IntToString(k)))
  {
    if n < p || p < 1 then Err(ValueError(ShapeMessage(n, p)))
    else if k < 1 then Err(ValueError("Need k >= 1. Value supplied was k = " + IntToString(k)))
    else Ok(Manifold(n, p, k))
  }

  /** `dim`: k (n p - p (p + 1) / 2), with the division done on integers.
      For valid parameters it lies between 0 and the dimension k n p of the
      ambient space. */
  function Dim(M: Manifold): (d: int)
    ensures Valid(M) ==> 0 <= d <= M.k * (M.n * M.p)
  {
    DimRange(M.n, M.p, M.k);
    M.k * (M.n * M.p - M.p * (M.p + 1) / 2)
  }

  /** 0 <= k (n p - p (p + 1) / 2) <= k n p for n >= p. */
  lemma {:induction false} DimRange(n: nat, p: nat, k: nat)
    ensures n >= p ==> 0 <= k * (n * p - p * (p + 1) / 2) <= k * (n * p)
  {
    if n >= p {
      HalfOfConsecutive(p);
      var t := p * (p + 1) / 2;
      assert p * p <= n * p by {
        assert n * p - p * p == (n - p) * p;
      }
      var e := n * p - t;
      assert 0 <= e <= n * p;
      assert k * (n * p) == k * e + k * t;
    }
  }

  /** The shape of the array holding a point: (n, p) for k == 1, else (k, n, p). */
  function Shape(M: Manifold): (s: seq<nat>)
    ensures |s| == if M.k == 1 then 2 else 3
    ensures s[|s| - 2..] == [M.n, M.p]
  {
    if M.k == 1 then [M.n, M.p] else [M.k, M.n, M.p]
  }

  lemma {:induction false} ProductOfConsecutiveIsEven(p: nat)
    ensures (p * (p + 1)) % 2 == 0
  {
    if p > 0 {
      ProductOfConsecutiveIsEven(p - 1);
      assert p * (p + 1) == (p - 1) * p + 2 * p;
    }
  }

  lemma {:induction false} HalfOfEven(x: int)
    requires x % 2 == 0
    ensures x as real / 2.0 == (x / 2) as real
  {
  }

  lemma {:induction false} AtMostSquare(p: nat)
    ensures p <= p * p
  {
    if p > 0 {
      assert p * p == (p - 1) * p + p;
    }
  }

  /** p (p + 1) / 2 is exact over the reals and at most p^2. */
  lemma {:induction false} HalfOfConsecutive(p: nat)
    ensures (p * (p + 1)) as real / 2.0 == (p * (p + 1) / 2) as real
    ensures p * (p + 1) / 2 <= p * p
  {
    ProductOfConsecutiveIsEven(p);
    HalfOfEven(p * (p + 1));
    AtMostSquare(p);
    assert p * (p + 1) == p * p + p;
  }

  lemma {:induction false} RealOfProduct(a: int, b: int)
    ensures (a * b) as real == a as real * b as real
  {
  }

  /** The dimension formula evaluated over the reals is already an integer,
      so the `int(...)` conversion loses nothing, and it is never negative. */
  lemma {:induction false} DimExact(M: Manifold)
    requires Valid(M)
    ensures Dim(M) as real == M.k as real * ((M.n * M.p) as real - (M.p * (M.p + 1)) as real / 2.0)
    ensures Dim(M) >= 0
  {
    var n, p, k := M.n, M.p, M.k;
    HalfOfConsecutive(p);
    var t := p * (p + 1) / 2;
    assert p * p <= n * p;
    var e := n * p - t;
    assert Dim(M) == k * e;
    RealOfProduct(k, e);
  }

  // ---------------------------------------------------------------------
  // Points and tangent vectors

  /** An array of the manifold's shape: k blocks of n x p. */
  predicate Conforms(M: Manifold, X: seq<Matrix>)
  {
    |X| == M.k && forall i :: 0 <= i < |X| ==> IsMatrix(X[i], M.n, M.p)
  }

  /** X^T X == I_p: the columns of X are orthonormal. */
  predicate Orthonormal(X: Matrix)
  {
    Rect(X) && Cols(X) > 0 && Mul(Transpose(X), X) == Identity(Cols(X))
  }

  /** A point of the manifold: every block has orthonormal columns. */
  predicate IsPoint(M: Manifold, X: seq<Matrix>)
  {
    Valid(M) && Conforms(M, X) && forall i :: 0 <= i < |X| ==> Orthonormal(X[i])
  }

  /** V is tangent at the block X: X^T V is skew-symmetric. */
  predicate TangentBlock(X: Matrix, V: Matrix)
    requires Rect(X) && Cols(X) > 0 && Rect(V) && |X| == |V|
  {
    IsSkewSymmetric(Mul(Transpose(X), V))
  }

  /** V is tangent at X, block by block. */
  predicate IsTangent(M: Manifold, X: seq<Matrix>, V: seq<Matrix>)
    requires Valid(M) && Conforms(M, X) && Conforms(M, V)
  {
    forall i :: 0 <= i < M.k ==> TangentBlock(X[i], V[i])
  }

  /** The tangency condition in the form X^T V + V^T X == 0. */
  lemma {:induction false} TangentBlockIff(X: Matrix, V: Matrix)
    requires Rect(X) && |X| > 0 && Cols(X) > 0 && IsMatrix(V, |X|, Cols(X))
    ensures TangentBlock(X, V)
        <==> Add(Mul(Transpose(X), V), Mul(Transpose(V), X)) == Zeros(Cols(X), Cols(X))
  {
    var A := Mul(Transpose(X), V);
    TransposeMul(Transpose(X), V);
    TransposeTranspose(X);
    SkewIff(A);
  }

  // ---------------------------------------------------------------------
  // Inner product

  /** The Frobenius product of block i of G and H (0 outside the blocks). */
  function BlockProduct(G: seq<Matrix>, H: seq<Matrix>, i: int): real
  {
    if 0 <= i < |G| && i < |H| then Frobenius(G[i], H[i]) else 0.0
  }

  /** `inner`: `np.tensordot` over all axes, the sum of all entrywise
      products. For k == 1 it is the Frobenius product of the single
      blocks, and a vector's product with itself is never negative. */
  function Inner(M: Manifold, X: seq<Matrix>, G: seq<Matrix>, H: seq<Matrix>): (r: real)
    ensures M.k == 1 && |G| == 1 && |H| == 1 ==> r == Frobenius(G[0], H[0])
    ensures G == H ==> r >= 0.0
  {
    BlockProductsNonNegative(M.k, G);
    if G == H then
      SumNonNegative(M.k, i => BlockProduct(G, H, i));
      Sum(M.k, i => BlockProduct(G, H, i))
    else
      Sum(M.k, i => BlockProduct(G, H, i))
  }

  /** Every block's product with itself is non-negative. */
  lemma {:induction false} BlockProductsNonNegative(k: nat, G: seq<Matrix>)
    ensures forall i :: 0 <= i < k ==> BlockProduct(G, G, i) >= 0.0
  {
    forall i | 0 <= i < k
      ensures BlockProduct(G, G, i) >= 0.0
    {
      if i < |G| {
        FrobeniusNonNegative(G[i]);
      }
    }
  }

  lemma {:induction false} InnerSymmetric(M: Manifold, X: seq<Matrix>, G: seq<Matrix>, H: seq<Matrix>)
    requires Conforms(M, G) && Conforms(M, H)
    ensures Inner(M, X, G, H) == Inner(M, X, H, G)
  {
    var f, g := i => BlockProduct(G, H, i), i => BlockProduct(H, G, i);
    forall i | 0 <= i < M.k
      ensures f(i) == g(i)
    {
      FrobeniusSymmetric(G[i], H[i], M.n, M.p);
    }
    SumExt(M.k, f, g);
  }

  /** The inner product is positive definite: never negative, and 0 on
      the diagonal only for the zero vector. */
  lemma {:induction false} InnerNonNegative(M: Manifold, X: seq<Matrix>, G: seq<Matrix>)
    requires Conforms(M, G)
    ensures Inner(M, X, G, G) >= 0.0
    ensures Inner(M, X, G, G) == 0.0 ==> G == ZeroVec(M, X)
  {
    var f := i => BlockProduct(G, G, i);
    forall i | 0 <= i < M.k
      ensures f(i) >= 0.0
    {
      FrobeniusNonNegative(G[i]);
    }
    SumNonNegative(M.k, f);
    if Inner(M, X, G, G) == 0.0 {
      SumNonNegativeZero(M.k, f);
      forall i | 0 <= i < M.k
        ensures G[i] == Zeros(M.n, M.p)
      {
        assert f(i) == 0.0;
        FrobeniusDefinite(G[i], M.n, M.p);
      }
    }
  }

  /** The inner product is additive in its first argument (and, by
      symmetry, in its second): for S == G + H, <S, K> == <G, K> + <H, K>. */
  lemma {:induction false} InnerAdd(M: Manifold, X: seq<Matrix>, G: seq<Matrix>, H: seq<Matrix>, S: seq<Matrix>, K: seq<Matrix>)
    requires Conforms(M, G) && Conforms(M, H) && Conforms(M, S) && Conforms(M, K)
    requires forall i, a, b :: 0 <= i < M.k && 0 <= a < M.n && 0 <= b < M.p ==> S[i][a][b] == G[i][a][b] + H[i][a][b]
    ensures Inner(M, X, S, K) == Inner(M, X, G, K) + Inner(M, X, H, K)
  {
    var f, g, h := i => BlockProduct(G, K, i), i => BlockProduct(H, K, i), i => BlockProduct(S, K, i);
    forall i | 0 <= i < M.k
      ensures h(i) == f(i) + g(i)
    {
      FrobeniusAdd(G[i], H[i], S[i], K[i], M.n, M.p);
    }
    SumAdd(M.k, f, g, h);
  }

  /** The inner product is homogeneous in its first argument (and, by
      symmetry, in its second): for S == c G, <S, K> == c <G, K>. */
  lemma {:induction false} InnerScale(M: Manifold, X: seq<Matrix>, c: real, G: seq<Matrix>, S: seq<Matrix>, K: seq<Matrix>)
    requires Conforms(M, G) && Conforms(M, S) && Conforms(M, K)
    requires forall i :: 0 <= i < M.k ==> S[i] == Scale(c, G[i])
    ensures Inner(M, X, S, K) == c * Inner(M, X, G, K)
  {
    BlocksScale(M, c, G, S, K);
    InnerOfScaledBlocks(M, X, c, G, S, K);
  }

  lemma {:induction false} InnerOfScaledBlocks(M: Manifold, X: seq<Matrix>, c: real, G: seq<Matrix>, S: seq<Matrix>, K: seq<Matrix>)
    requires forall i :: 0 <= i < M.k ==> BlockProduct(S, K, i) == c * BlockProduct(G, K, i)
    ensures Inner(M, X, S, K) == c * Inner(M, X, G, K)
  {
    SumScaleTo(M.k, c, i => BlockProduct(G, K, i), i => BlockProduct(S, K, i), Inner(M, X, G, K), Inner(M, X, S, K));
  }

  lemma {:induction false} BlocksScale(M: Manifold, c: real, G: seq<Matrix>, S: seq<Matrix>, K: seq<Matrix>)
    requires Conforms(M, G) && Conforms(M, S) && Conforms(M, K)
    requires forall i :: 0 <= i < M.k ==> S[i] == Scale(c, G[i])
    ensures forall i :: 0 <= i < M.k ==> BlockProduct(S, K, i) == c * BlockProduct(G, K, i)
  {
    forall i | 0 <= i < M.k
      ensures BlockProduct(S, K, i) == c * BlockProduct(G, K, i)
    {
      FrobeniusScale(c, G[i], S[i], K[i], M.n, M.p);
    }
  }

  // ---------------------------------------------------------------------
  // Projection onto the tangent space

  /** `U - X @ multisym(X.T @ U)` for one block. */
  function ProjBlock(X: Matrix, U: Matrix): (P: Matrix)
    requires Rect(X) && |X| > 0 && Cols(X) > 0 && IsMatrix(U, |X|, Cols(X))
    ensures IsMatrix(P, |X|, Cols(X))
  {
    Sub(U, Mul(X, Sym(Mul(Transpose(X), U))))
  }

  /** With orthonormal X, X^T proj(X, U) is the skew part of X^T U. */
  lemma {:induction false} ProjBlockXt(X: Matrix, U: Matrix)
    requires Orthonormal(X) && |X| > 0 && Cols(X) > 0 && IsMatrix(U, |X|, Cols(X))
    ensures Mul(Transpose(X), ProjBlock(X, U))
         == Sub(Mul(Transpose(X), U), Sym(Mul(Transpose(X), U)))
  {
    var XT := Transpose(X);
    var S := Sym(Mul(XT, U));
    MulSubLeft(XT, U, Mul(X, S));
    MulAssoc(XT, X, S);
    MulIdentityLeft(S);
  }

  /** With orthonormal X, proj(X, U) is tangent at X. */
  lemma {:induction false} ProjBlockTangent(X: Matrix, U: Matrix)
    requires Orthonormal(X) && |X| > 0 && Cols(X) > 0 && IsMatrix(U, |X|, Cols(X))
    ensures TangentBlock(X, ProjBlock(X, U))
  {
    ProjBlockXt(X, U);
    SubSymSkew(Mul(Transpose(X), U));
  }

  /** proj(X, V) == V for a tangent V, whether or not X is orthonormal. */
  lemma {:induction false} ProjBlockFixesTangent(X: Matrix, V: Matrix)
    requires Rect(X) && |X| > 0 && Cols(X) > 0 && IsMatrix(V, |X|, Cols(X))
    requires TangentBlock(X, V)
    ensures ProjBlock(X, V) == V
  {
    var p := Cols(X);
    SymOfSkew(Mul(Transpose(X), V));
    MulZerosRight(X, p);
    SubZeros(V);
  }

  /** With orthonormal X, proj(X, .) fixes exactly the tangent vectors. */
  lemma {:induction false} ProjBlockFixedIff(X: Matrix, V: Matrix)
    requires Orthonormal(X) && |X| > 0 && Cols(X) > 0 && IsMatrix(V, |X|, Cols(X))
    ensures ProjBlock(X, V) == V <==> TangentBlock(X, V)
  {
    if ProjBlock(X, V) == V {
      ProjBlockTangent(X, V);
    }
    if TangentBlock(X, V) {
      ProjBlockFixesTangent(X, V);
    }
  }

  /** `proj` is the orthogonal projection for one block: U - proj(X, U) is
      orthogonal to every V tangent at X, so <proj(X, U), V> == <U, V>.
      Only the tangency of V is needed, not the orthonormality of X. */
  lemma {:induction false} ProjBlockOrthogonal(X: Matrix, U: Matrix, V: Matrix)
    requires Rect(X) && |X| > 0 && Cols(X) > 0 && IsMatrix(U, |X|, Cols(X)) && IsMatrix(V, |X|, Cols(X))
    requires TangentBlock(X, V)
    ensures Frobenius(ProjBlock(X, U), V) == Frobenius(U, V)
  {
    var n, p := |X|, Cols(X);
    var S := Sym(Mul(Transpose(X), U));
    FrobeniusSub(U, Mul(X, S), V, n, p);
    FrobeniusMulLeft(X, S, V, n, p, p);
    SymSymmetric(Mul(Transpose(X), U));
    FrobeniusSymSkew(S, Mul(Transpose(X), V), p);
  }

  /** `proj`, block by block. */
  function Proj(M: Manifold, X: seq<Matrix>, U: seq<Matrix>): (P: seq<Matrix>)
    requires Valid(M) && Conforms(M, X) && Conforms(M, U)
    ensures Conforms(M, P)
  {
    seq(M.k, i requires 0 <= i < M.k => ProjBlock(X[i], U[i]))
  }

  /** At a point of the manifold, `proj` lands in the tangent space. */
  lemma {:induction false} ProjTangent(M: Manifold, X: seq<Matrix>, U: seq<Matrix>)
    requires IsPoint(M, X) && Conforms(M, U)
    ensures IsTangent(M, X, Proj(M, X, U))
  {
    forall i | 0 <= i < M.k
      ensures TangentBlock(X[i], Proj(M, X, U)[i])
    {
      ProjBlockTangent(X[i], U[i]);
    }
  }

  /** At a point of the manifold, `proj` fixes exactly the tangent vectors. */
  lemma {:induction false} ProjFixedIff(M: Manifold, X: seq<Matrix>, V: seq<Matrix>)
    requires IsPoint(M, X) && Conforms(M, V)
    ensures Proj(M, X, V) == V <==> IsTangent(M, X, V)
  {
    var P := Proj(M, X, V);
    if P == V {
      ProjTangent(M, X, V);
    }
    if IsTangent(M, X, V) {
      forall i | 0 <= i < M.k
        ensures P[i] == V[i]
      {
        ProjBlockFixesTangent(X[i], V[i]);
      }
    }
  }

  /** `proj` is the orthogonal projection onto the tangent space: for every
      tangent V, <proj(X, U), V> == <U, V>. */
  lemma {:induction false} ProjOrthogonal(M: Manifold, X: seq<Matrix>, U: seq<Matrix>, V: seq<Matrix>)
    requires Valid(M) && Conforms(M, X) && Conforms(M, U) && Conforms(M, V)
    requires IsTangent(M, X, V)
    ensures Inner(M, X, Proj(M, X, U), V) == Inner(M, X, U, V)
  {
    var P := Proj(M, X, U);
    var f, g := i => BlockProduct(P, V, i), i => BlockProduct(U, V, i);
    forall i | 0 <= i < M.k
      ensures f(i) == g(i)
    {
      ProjBlockOrthogonal(X[i], U[i], V[i]);
    }
    SumExt(M.k, f, g);
  }

  /** At a point of the manifold, `proj` is idempotent. */
  lemma {:induction false} ProjIdempotent(M: Manifold, X: seq<Matrix>, U: seq<Matrix>)
    requires IsPoint(M, X) && Conforms(M, U)
    ensures Proj(M, X, Proj(M, X, U)) == Proj(M, X, U)
  {
    ProjTangent(M, X, U);
    ProjFixedIff(M, X, Proj(M, X, U));
  }

  // ---------------------------------------------------------------------
  // Hessian conversion, transport and zero vector

  /** `ehess - H @ multisym(X.T @ egrad)` for one block. */
  function HessianCorrection(X: Matrix, egrad: Matrix, ehess: Matrix, H: Matrix): (C: Matrix)
    requires Rect(X) && |X| > 0 && Cols(X) > 0
    requires IsMatrix(egrad, |X|, Cols(X)) && IsMatrix(ehess, |X|, Cols(X)) && IsMatrix(H, |X|, Cols(X))
    ensures IsMatrix(C, |X|, Cols(X))
  {
    Sub(ehess, Mul(H, Sym(Mul(Transpose(X), egrad))))
  }

  /** `ehess2rhess`: the projection of the corrected Euclidean Hessian. */
  function EHess2RHess(M: Manifold, X: seq<Matrix>, egrad: seq<Matrix>, ehess: seq<Matrix>, H: seq<Matrix>)
    : (R: seq<Matrix>)
    requires Valid(M) && Conforms(M, X) && Conforms(M, egrad) && Conforms(M, ehess) && Conforms(M, H)
    ensures Conforms(M, R)
  {
    Proj(M, X, seq(M.k, i requires 0 <= i < M.k => HessianCorrection(X[i], egrad[i], ehess[i], H[i])))
  }

  /** At a point of the manifold the Riemannian Hessian is a tangent vector. */
  lemma {:induction false} EHess2RHessTangent(M: Manifold, X: seq<Matrix>, egrad: seq<Matrix>, ehess: seq<Matrix>, H: seq<Matrix>)
    requires IsPoint(M, X) && Conforms(M, egrad) && Conforms(M, ehess) && Conforms(M, H)
    ensures IsTangent(M, X, EHess2RHess(M, X, egrad, ehess, H))
  {
    var C := seq(M.k, i requires 0 <= i < M.k => HessianCorrection(X[i], egrad[i], ehess[i], H[i]));
    ProjTangent(M, X, C);
  }

  /** `transp(x1, x2, d)`: re-projection at x2; x1 plays no part. */
  function Transp(M: Manifold, x1: seq<Matrix>, x2: seq<Matrix>, d: seq<Matrix>): (t: seq<Matrix>)
    requires Valid(M) && Conforms(M, x2) && Conforms(M, d)
    ensures Conforms(M, t)
  {
    Proj(M, x2, d)
  }

  /** Transport lands in the tangent space at x2, fixes vectors already
      tangent there, and does not depend on x1. */
  lemma {:induction false} TranspTangent(M: Manifold, x1: seq<Matrix>, y1: seq<Matrix>, x2: seq<Matrix>, d: seq<Matrix>)
    requires IsPoint(M, x2) && Conforms(M, d)
    ensures IsTangent(M, x2, Transp(M, x1, x2, d))
    ensures IsTangent(M, x2, d) ==> Transp(M, x1, x2, d) == d
    ensures Transp(M, x1, x2, d) == Transp(M, y1, x2, d)
  {
    ProjTangent(M, x2, d);
    ProjFixedIff(M, x2, d);
  }

  /** `zerovec`: k blocks of n x p zeros. */
  function ZeroVec(M: Manifold, X: seq<Matrix>): (Z: seq<Matrix>)
    ensures Conforms(M, Z)
    ensures forall i, a, b :: 0 <= i < M.k && 0 <= a < M.n && 0 <= b < M.p ==> Z[i][a][b] == 0.0
  {
    seq(M.k, i => Zeros(M.n, M.p))
  }

  /** The zero vector is orthogonal to every vector, itself included. */
  lemma {:induction false} ZeroVecInner(M: Manifold, X: seq<Matrix>, H: seq<Matrix>)
    requires Conforms(M, H)
    ensures Inner(M, X, ZeroVec(M, X), H) == 0.0
    ensures Inner(M, X, ZeroVec(M, X), ZeroVec(M, X)) == 0.0
  {
    var Z := ZeroVec(M, X);
    forall i | 0 <= i < M.k
      ensures BlockProduct(Z, H, i) == 0.0 && BlockProduct(Z, Z, i) == 0.0
    {
      FrobeniusZeros(M.n, M.p, H[i]);
      FrobeniusZeros(M.n, M.p, Z[i]);
    }
    SumZero(M.k, i => BlockProduct(Z, H, i));
    SumZero(M.k, i => BlockProduct(Z, Z, i));
  }

  /** At a point of the manifold, the zero vector is tangent. */
  lemma {:induction false} ZeroVecTangent(M: Manifold, X: seq<Matrix>)
    requires IsPoint(M, X)
    ensures IsTangent(M, X, ZeroVec(M, X))
  {
    forall i | 0 <= i < M.k
      ensures TangentBlock(X[i], Zeros(M.n, M.p))
    {
      MulZerosRight(Transpose(X[i]), M.p);
    }
  }

  // ---------------------------------------------------------------------
  // Sign correction of the QR retraction

  /** `np.sign` */
  function Sign(x: real): real
  {
    if x > 0.0 then 1.0 else if x < 0.0 then -1.0 else 0.0
  }

  /** `np.sign(np.sign(r) + 0.5)`: +1 for r >= 0 and -1 for r < 0, never 0. */
  function SignFactor(r: real): (s: real)
    ensures s == if r >= 0.0 then 1.0 else -1.0
    ensures s * s == 1.0 && s * r >= 0.0
  {
    Sign(Sign(r) + 0.5)
  }

  /** `np.diag(np.sign(np.sign(np.diag(R)) + 0.5))` for a p x p factor R. */
  function Correction(R: Matrix): (D: Matrix)
    requires IsMatrix(R, |R|, |R|)
    ensures IsMatrix(D, |R|, |R|)
    ensures forall i, j :: 0 <= i < |R| && 0 <= j < |R| ==>
      D[i][j] == if i == j then SignFactor(R[i][i]) else 0.0
  {
    DiagMatrix(seq(|R|, i requires 0 <= i < |R| => SignFactor(R[i][i])))
  }

  /** The correcting diagonal is its own inverse. */
  lemma {:induction false} CorrectionInvolution(R: Matrix)
    requires IsMatrix(R, |R|, |R|) && |R| > 0
    ensures Mul(Correction(R), Correction(R)) == Identity(|R|)
  {
    var D, m := Correction(R), |R|;
    forall i, j | 0 <= i < m && 0 <= j < m
      ensures Mul(D, D)[i][j] == Identity(m)[i][j]
    {
      var f := l => Entry(D, i, l) * Entry(D, l, j);
      forall l | 0 <= l < m && l != i
        ensures f(l) == 0.0
      {
        assert Entry(D, i, l) == 0.0;
      }
      SumSingle(m, f, i);
      var s := SignFactor(R[i][i]);
      assert f(i) == s * Entry(D, i, j);
    }
    Ext(Mul(D, D), Identity(m), m, m);
  }

  /** Multiplying row i of R by the i-th sign makes its diagonal non-negative. */
  lemma {:induction false} CorrectedDiagonal(R: Matrix, i: int)
    requires IsMatrix(R, |R|, |R|) && |R| > 0 && 0 <= i < |R|
    ensures Mul(Correction(R), R)[i][i] == SignFactor(R[i][i]) * R[i][i] >= 0.0
  {
    var D, m := Correction(R), |R|;
    var f := l => Entry(D, i, l) * Entry(R, l, i);
    forall l | 0 <= l < m && l != i
      ensures f(l) == 0.0
    {
      assert Entry(D, i, l) == 0.0;
    }
    SumSingle(m, f, i);
  }

  /** The corrected factors (Q D, D R) still multiply to Q R, and Q D keeps
      orthonormal columns. */
  lemma {:induction false} CorrectionKeepsFactorization(Q: Matrix, R: Matrix)
    requires Orthonormal(Q) && |Q| > 0 && Cols(Q) > 0 && IsMatrix(R, Cols(Q), Cols(Q))
    ensures Mul(Mul(Q, Correction(R)), Mul(Correction(R), R)) == Mul(Q, R)
    ensures Orthonormal(Mul(Q, Correction(R)))
  {
    var D, QT := Correction(R), Transpose(Q);
    var QD := Mul(Q, D);
    CorrectionInvolution(R);
    MulAssoc(QD, D, R);
    MulAssoc(Q, D, D);
    MulIdentityRight(Q);
    // (Q D)^T (Q D) == D Q^T Q D == D D == I
    TransposeMul(Q, D);
    assert Transpose(D) == D by {
      Ext(Transpose(D), D, |R|, |R|);
    }
    MulAssoc(D, QT, QD);
    MulAssoc(QT, Q, D);
    MulIdentityLeft(D);
  }
}

/** Euclidean space of arrays of a fixed shape, and its linear subspaces of
    symmetric and of skew-symmetric matrices (or stacks of k such matrices).
    An array is stored as the flat sequence of its entries in row-major
    order, the order numpy lays them out in; a stack of k n x n matrices
    has its entry (b, i, j) at position b*n*n + i*n + j. */
module Euclidean {
  import opened Errors
  import opened Sums
  import Matrices
  import Stiefel

  type Array = seq<real>

  /** Which of the three classes built the manifold; they share every
      operation except construction and the projection. */
  datatype Kind = General | SymmetricMatrices | SkewSymmetricMatrices

  datatype Manifold = Manifold(kind: Kind, shape: seq<nat>, dim: int)

  /** The number of entries of an array of the given shape. */
  function Size(shape: seq<nat>): nat
  {
    if |shape| == 0 then 1 else shape[0] * Size(shape[1..])
  }

  /** The shapes the constructors produce: any non-empty shape for the
      general class, (n, n) or (k, n, n) with k > 1 for the other two. */
  predicate Valid(M: Manifold)
  {
    match M.kind
    case General => |M.shape| > 0
    case _ => (|M.shape| == 2 && M.shape[0] == M.shape[1])
              || (|M.shape| == 3 && M.shape[0] > 1 && M.shape[1] == M.shape[2])
  }

  /** The number of matrices in a (stack of) square matrices. */
  function Blocks(M: Manifold): nat
    requires Valid(M) && M.kind != General
  {
    if |M.shape| == 3 then M.shape[0] else 1
  }

  /** The side n of each n x n matrix. */
  function Side(M: Manifold): nat
    requires Valid(M) && M.kind != General
  {
    M.shape[|M.shape| - 1]
  }

  lemma {:induction false} SizeOfStack(M: Manifold)
    requires Valid(M) && M.kind != General
    ensures Size(M.shape) == Blocks(M) * (Side(M) * Side(M))
  {
    var s := M.shape;
    if |s| == 2 {
      assert s[1..] == [s[1]] && [s[1]][1..] == [];
      assert Size(s[1..]) == s[1];
    } else {
      assert s[1..] == [s[1], s[2]] && [s[1], s[2]][1..] == [s[2]] && [s[2]][1..] == [];
      assert Size([s[2]]) == s[2];
      assert Size(s[1..]) == s[1] * s[2];
    }
  }

  // ---------------------------------------------------------------------
  // Construction

  /** `Euclidean(*shape)`: at least one shape parameter, and the dimension
      is the product of the shape. */
  function NewEuclidean(shape: seq<nat>): (r: Result<Manifold>)
    ensures r.Err? <==> |shape| == 0
    ensures r.Err? ==> r.error == TypeError("Need shape parameters")
    ensures r.Ok? ==> Valid(r.value) && r.value.kind == General && r.value.shape == shape
    ensures r.Ok? ==> r.value.dim == Size(shape)
  {
    if |shape| == 0 then Err(TypeError("Need shape parameters"))
    else Ok(Manifold(General, shape, Size(shape)))
  }

  /** `Symmetric(n, k)`: shape (n, n) for k == 1, (k, n, n) for k > 1, and
      `int(k * n * (n + 1) / 2)` as dimension; k < 1 is refused. */
  function NewSymmetric(n: nat, k: int): (r: Result<Manifold>)
    ensures r.Err? <==> k < 1
    ensures r.Err? ==> r.error == ValueError("k must be an integer no less than 1, got " + IntToString(k))
    ensures r.Ok? ==> Valid(r.value) && r.value.kind == SymmetricMatrices
                      && r.value.shape == (if k == 1 then [n, n] else [k, n, n])
  {
    if k == 1 then Ok(Manifold(SymmetricMatrices, [n, n], (k * n * (n + 1)) / 2))
    else if k > 1 then Ok(Manifold(SymmetricMatrices, [k, n, n], (k * n * (n + 1)) / 2))
    else Err(ValueError("k must be an integer no less than 1, got " + IntToString(k)))
  }

  /** `SkewSymmetric(n, k)`: the same shapes, dimension
      `int(k * n * (n - 1) / 2)`, and k < 1 refused. */
  function NewSkewSymmetric(n: nat, k: int): (r: Result<Manifold>)
    ensures r.Err? <==> k < 1
    ensures r.Err? ==> r.error == ValueError("k must be an integer no less than 1")
    ensures r.Ok? ==> Valid(r.value) && r.value.kind == SkewSymmetricMatrices
                      && r.value.shape == (if k == 1 then [n, n] else [k, n, n])
  {
    if k == 1 then Ok(Manifold(SkewSymmetricMatrices, [n, n], (k * n * (n - 1)) / 2))
    else if k > 1 then Ok(Manifold(SkewSymmetricMatrices, [k, n, n], (k * n * (n - 1)) / 2))
    else Err(ValueError("k must be an integer no less than 1"))
  }

  /** The error message of `Symmetric` spells the offending k out. */
  lemma {:induction false} NewSymmetricMessage()
    ensures NewSymmetric(3, 0) == Err(ValueError("k must be an integer no less than 1, got 0"))
    ensures NewSymmetric(3, -12) == Err(ValueError("k must be an integer no less than 1, got -12"))
  {
    assert NatToString(12) == NatToString(1) + [Digit(2)];
  }

  /** Half of k times an even number m, taken in the integers or in the
      reals, is k times half of m. */
  lemma {:induction false} HalfExact(k: nat, m: nat)
    requires m % 2 == 0
    ensures (k * m) / 2 == k * (m / 2) && ((k * m) / 2) as real == (k * m) as real / 2.0
  {
    var h := m / 2;
    assert m == 2 * h;
    assert k * m == 2 * (k * h);
  }

  /** With n(n+1) = 2h (or n(n-1) = 2h), the stacked count k*h lies
      between 0 and the k*n*n entries of the array. */
  lemma {:induction false} HalfSquareBounds(k: nat, n: nat, h: nat, m: int)
    requires 2 * h == n * n + m && -(n as int) <= m <= n
    ensures 0 <= k * h <= k * (n * n)
  {
    if n > 0 {
      MulMono(1, n, n);
    }
    MulMono(h, n * n, k);
  }

  /** The dimension of `Symmetric(n, k)` is exactly k*n*(n+1)/2 (the
      division leaves no remainder, so `int(...)` loses nothing): a symmetric
      n x n matrix is fixed by its n(n+1)/2 entries on or above the diagonal,
      which is at most the n*n entries of the array. */
  lemma {:induction false} SymmetricDim(n: nat, k: int)
    requires k >= 1
    ensures NewSymmetric(n, k).value.dim as real == (k * n * (n + 1)) as real / 2.0
    ensures 0 <= NewSymmetric(n, k).value.dim <= Size(NewSymmetric(n, k).value.shape)
  {
    var M := NewSymmetric(n, k).value;
    var m := n * (n + 1);
    assert k * n * (n + 1) == k * m;
    Stiefel.ProductOfConsecutiveIsEven(n);
    HalfExact(k, m);
    HalfSquareBounds(k, n, m / 2, n);
    SizeOfStack(M);
  }

  /** The dimension of `SkewSymmetric(n, k)` is exactly k*n*(n-1)/2: the
      entries strictly above the diagonal. */
  lemma {:induction false} SkewSymmetricDim(n: nat, k: int)
    requires k >= 1
    ensures NewSkewSymmetric(n, k).value.dim as real == (k * n * (n - 1)) as real / 2.0
    ensures 0 <= NewSkewSymmetric(n, k).value.dim <= Size(NewSkewSymmetric(n, k).value.shape)
  {
    var M := NewSkewSymmetric(n, k).value;
    SizeOfStack(M);
    if n == 0 {
      assert k * n * (n - 1) == 0;
    } else {
      SkewHalf(k, n);
    }
  }

  lemma {:induction false} SkewHalf(k: nat, n: nat)
    requires n >= 1
    ensures ((k * n * (n - 1)) / 2) as real == (k * n * (n - 1)) as real / 2.0
    ensures 0 <= (k * n * (n - 1)) / 2 <= k * (n * n)
  {
    var q: nat := n - 1;
    var m := q * (q + 1);
    assert m == n * n - n;
    assert k * n * (n - 1) == k * m;
    Stiefel.ProductOfConsecutiveIsEven(q);
    HalfExact(k, m);
    HalfSquareBounds(k, n, m / 2, -(n as int));
  }

  // ---------------------------------------------------------------------
  // The transposing permutation of a stack of square matrices

  lemma {:induction false} MulMono(a: int, b: int, c: nat)
    requires a <= b
    ensures a * c <= b * c
  {
    assert b * c - a * c == (b - a) * c;
  }

  lemma {:induction false} DivModOf(a: nat, d: nat, r: nat)
    requires r < d
    ensures (a * d + r) / d == a && (a * d + r) % d == r
  {
    var x := a * d + r;
    var q, s := x / d, x % d;
    assert q * d + s == a * d + r;
    if q > a {
      MulMono(a + 1, q, d);
    } else if q < a {
      MulMono(q + 1, a, d);
    }
  }

  /** The position of entry (b, i, j) of a stack of n x n matrices. */
  function At(n: nat, b: nat, i: nat, j: nat): nat
  {
    b * (n * n) + i * n + j
  }

  /** Every entry of a stack of k n x n matrices has a position in it. */
  lemma {:induction false} AtBelow(k: nat, n: nat, b: nat, i: nat, j: nat)
    requires b < k && i < n && j < n
    ensures i * n + j < n * n
    ensures At(n, b, i, j) < k * (n * n)
  {
    MulMono(i, n - 1, n);
    assert (n - 1) * n == n * n - n;
    MulMono(b + 1, k, n * n);
    assert (b + 1) * (n * n) == b * (n * n) + n * n;
  }

  /** Position p of a stack of k n x n matrices holds entry
      (p / (n*n), (p % (n*n)) / n, (p % (n*n)) % n). */
  lemma {:induction false} SplitIndex(k: nat, n: nat, p: nat)
    requires p < k * (n * n)
    ensures n > 0 && n * n > 0
    ensures p / (n * n) < k && (p % (n * n)) / n < n && (p % (n * n)) % n < n
    ensures p == At(n, p / (n * n), (p % (n * n)) / n, (p % (n * n)) % n)
  {
    var d := n * n;
    assert d > 0;
    var b, q := p / d, p % d;
    assert p == b * d + q;
    if b >= k {
      MulMono(k, b, d);
    }
    assert n > 0;
    var i, j := q / n, q % n;
    assert q == i * n + j;
    if i >= n {
      MulMono(n, i, n);
    }
  }

  /** Position p of a stack of k n x n matrices holds entry (b, i, j). */
  lemma {:induction false} Decompose(k: nat, n: nat, p: nat) returns (b: nat, i: nat, j: nat)
    requires p < k * (n * n)
    ensures b < k && i < n && j < n && p == At(n, b, i, j)
  {
    SplitIndex(k, n, p);
    b, i, j := p / (n * n), (p % (n * n)) / n, (p % (n * n)) % n;
  }

  /** The position of the transposed entry: (b, i, j) goes to (b, j, i). */
  function Swap(k: nat, n: nat, p: nat): (s: nat)
    requires p < k * (n * n)
    ensures s < k * (n * n)
  {
    SplitIndex(k, n, p);
    var b, i, j := p / (n * n), (p % (n * n)) / n, (p % (n * n)) % n;
    AtBelow(k, n, b, j, i);
    At(n, b, j, i)
  }

  lemma {:induction false} SwapAt(k: nat, n: nat, b: nat, i: nat, j: nat)
    requires b < k && i < n && j < n
    ensures At(n, b, i, j) < k * (n * n) && Swap(k, n, At(n, b, i, j)) == At(n, b, j, i)
  {
    AtBelow(k, n, b, i, j);
    var p := At(n, b, i, j);
    assert p == b * (n * n) + (i * n + j);
    DivModOf(b, n * n, i * n + j);
    DivModOf(i, n, j);
  }

  /** Transposing twice gives the entry back. */
  lemma {:induction false} SwapInvolution(k: nat, n: nat, p: nat)
    requires p < k * (n * n)
    ensures Swap(k, n, Swap(k, n, p)) == p
  {
    var b, i, j := Decompose(k, n, p);
    SwapAt(k, n, b, i, j);
    SwapAt(k, n, b, j, i);
  }

  // ---------------------------------------------------------------------
  // multisym and multiskew on flat stacks

  predicate IsSymmetricStack(k: nat, n: nat, X: Array)
    requires |X| == k * (n * n)
  {
    forall p :: 0 <= p < |X| ==> X[p] == X[Swap(k, n, p)]
  }

  predicate IsSkewStack(k: nat, n: nat, X: Array)
    requires |X| == k * (n * n)
  {
    forall p :: 0 <= p < |X| ==> X[p] == -X[Swap(k, n, p)]
  }

  /** `multisym(X)`: every matrix of the stack becomes (A + A^T) / 2. */
  function SymStack(k: nat, n: nat, X: Array): (S: Array)
    requires |X| == k * (n * n)
    ensures |S| == |X|
    ensures IsSymmetricStack(k, n, S)
  {
    var S := seq(|X|, p requires 0 <= p < |X| => (X[p] + X[Swap(k, n, p)]) / 2.0);
    assert forall p :: 0 <= p < |X| ==> S[p] == S[Swap(k, n, p)] by {
      forall p | 0 <= p < |X| ensures S[p] == S[Swap(k, n, p)] {
        SwapInvolution(k, n, p);
      }
    }
    S
  }

  /** `multiskew(X)`: every matrix of the stack becomes (A - A^T) / 2. */
  function SkewStack(k: nat, n: nat, X: Array): (S: Array)
    requires |X| == k * (n * n)
    ensures |S| == |X|
    ensures IsSkewStack(k, n, S)
  {
    var S := seq(|X|, p requires 0 <= p < |X| => (X[p] - X[Swap(k, n, p)]) / 2.0);
    assert forall p :: 0 <= p < |X| ==> S[p] == -S[Swap(k, n, p)] by {
      forall p | 0 <= p < |X| ensures S[p] == -S[Swap(k, n, p)] {
        SwapInvolution(k, n, p);
      }
    }
    S
  }

  /** `multisym` fixes exactly the symmetric stacks. */
  lemma {:induction false} SymStackFixedIff(k: nat, n: nat, X: Array)
    requires |X| == k * (n * n)
    ensures SymStack(k, n, X) == X <==> IsSymmetricStack(k, n, X)
  {
    if IsSymmetricStack(k, n, X) {
      assert SymStack(k, n, X) == X;
    }
  }

  /** `multiskew` fixes exactly the skew-symmetric stacks. */
  lemma {:induction false} SkewStackFixedIff(k: nat, n: nat, X: Array)
    requires |X| == k * (n * n)
    ensures SkewStack(k, n, X) == X <==> IsSkewStack(k, n, X)
  {
    if IsSkewStack(k, n, X) {
      assert SkewStack(k, n, X) == X;
    }
  }

  /** `Swap` extended to all integers, fixing those outside the stack. */
  function SwapMap(k: nat, n: nat): int -> int
  {
    p => if 0 <= p < k * (n * n) then Swap(k, n, p) else p
  }

  lemma {:induction false} SwapMapInvolution(k: nat, n: nat)
    ensures Involution(k * (n * n), SwapMap(k, n))
  {
    var s := SwapMap(k, n);
    forall p | 0 <= p < k * (n * n)
      ensures 0 <= s(p) < k * (n * n)
    {
    }
    forall p | 0 <= p < k * (n * n)
      ensures s(s(p)) == p
    {
      SwapInvolution(k, n, p);
    }
  }

  /** x v == (a v + b w) / 2 for x == (a + b) / 2 and v == w. */
  lemma {:induction false} HalfSumTimes(x: real, a: real, b: real, v: real, w: real)
    requires x == (a + b) / 2.0 && v == w
    ensures x * v == (a * v + b * w) / 2.0
  {
  }

  /** x v == (a v + b w) / 2 for x == (a - b) / 2 and v == -w. */
  lemma {:induction false} HalfDiffTimes(x: real, a: real, b: real, v: real, w: real)
    requires x == (a - b) / 2.0 && v == -w
    ensures x * v == (a * v + b * w) / 2.0
  {
  }

  /** The p-th product of S and V is the average of the p-th and q-th
      products of U and V once S[p] V[p] is that average. */
  lemma {:induction false} ProductsAverage(S: Array, U: Array, V: Array, p: int, q: int)
    requires |S| == |U| == |V| && 0 <= p < |U| && 0 <= q < |U|
    requires S[p] * V[p] == (U[p] * V[p] + U[q] * V[q]) / 2.0
    ensures Products(S, V)(p) == (Products(U, V)(p) + Products(U, V)(q)) / 2.0
  {
  }

  /** `multisym` is the orthogonal projection onto the symmetric stacks:
      for a symmetric V, <multisym(U), V> == <U, V>. */
  lemma {:induction false} SymStackPairing(k: nat, n: nat, U: Array, V: Array)
    requires |U| == |V| == k * (n * n)
    requires IsSymmetricStack(k, n, V)
    ensures Inner(SymStack(k, n, U), V) == Inner(U, V)
  {
    var N, S, s := k * (n * n), SymStack(k, n, U), SwapMap(k, n);
    var f, h := Products(U, V), Products(S, V);
    SwapMapInvolution(k, n);
    forall p | 0 <= p < N
      ensures h(p) == (f(p) + f(s(p))) / 2.0
    {
      SymStackPairingEntry(k, n, U, V, p);
    }
    SumAverageInvolution(N, f, h, s);
  }

  /** Entry p of `multisym(U)` beside entry p of a symmetric V. */
  lemma {:induction false} SymStackAt(k: nat, n: nat, U: Array, V: Array, p: int)
    requires |U| == |V| == k * (n * n) && 0 <= p < |U|
    requires IsSymmetricStack(k, n, V)
    ensures SwapMap(k, n)(p) == Swap(k, n, p)
    ensures SymStack(k, n, U)[p] == (U[p] + U[Swap(k, n, p)]) / 2.0
    ensures V[p] == V[Swap(k, n, p)]
  {
  }

  /** Entry p of `SymStackPairing`. */
  lemma {:induction false} SymStackPairingEntry(k: nat, n: nat, U: Array, V: Array, p: int)
    requires |U| == |V| == k * (n * n) && 0 <= p < |U|
    requires IsSymmetricStack(k, n, V)
    ensures Products(SymStack(k, n, U), V)(p)
         == (Products(U, V)(p) + Products(U, V)(SwapMap(k, n)(p))) / 2.0
  {
    var q, S := Swap(k, n, p), SymStack(k, n, U);
    SymStackAt(k, n, U, V, p);
    HalfSumTimes(S[p], U[p], U[q], V[p], V[q]);
    ProductsAverage(S, U, V, p, q);
  }

  /** `multiskew` is the orthogonal projection onto the skew-symmetric
      stacks: for a skew-symmetric V, <multiskew(U), V> == <U, V>. */
  lemma {:induction false} SkewStackPairing(k: nat, n: nat, U: Array, V: Array)
    requires |U| == |V| == k * (n * n)
    requires IsSkewStack(k, n, V)
    ensures Inner(SkewStack(k, n, U), V) == Inner(U, V)
  {
    var N, S, s := k * (n * n), SkewStack(k, n, U), SwapMap(k, n);
    var f, h := Products(U, V), Products(S, V);
    SwapMapInvolution(k, n);
    forall p | 0 <= p < N
      ensures h(p) == (f(p) + f(s(p))) / 2.0
    {
      SkewStackPairingEntry(k, n, U, V, p);
    }
    SumAverageInvolution(N, f, h, s);
  }

  /** Entry p of `multiskew(U)` beside entry p of a skew-symmetric V. */
  lemma {:induction false} SkewStackAt(k: nat, n: nat, U: Array, V: Array, p: int)
    requires |U| == |V| == k * (n * n) && 0 <= p < |U|
    requires IsSkewStack(k, n, V)
    ensures SwapMap(k, n)(p) == Swap(k, n, p)
    ensures SkewStack(k, n, U)[p] == (U[p] - U[Swap(k, n, p)]) / 2.0
    ensures V[p] == -V[Swap(k, n, p)]
  {
  }

  /** Entry p of `SkewStackPairing`. */
  lemma {:induction false} SkewStackPairingEntry(k: nat, n: nat, U: Array, V: Array, p: int)
    requires |U| == |V| == k * (n * n) && 0 <= p < |U|
    requires IsSkewStack(k, n, V)
    ensures Products(SkewStack(k, n, U), V)(p)
         == (Products(U, V)(p) + Products(U, V)(SwapMap(k, n)(p))) / 2.0
  {
    var q, S := Swap(k, n, p), SkewStack(k, n, U);
    SkewStackAt(k, n, U, V, p);
    HalfDiffTimes(S[p], U[p], U[q], V[p], V[q]);
    ProductsAverage(S, U, V, p, q);
  }

  /** A stack of one matrix, read as a matrix. */
  function Reshape(n: nat, X: Array): (A: Matrices.Matrix)
    requires |X| == n * n
    ensures Matrices.IsMatrix(A, n, n)
  {
    seq(n, i requires 0 <= i < n => seq(n, j requires 0 <= j < n => (AtBelow(1, n, 0, i, j); X[i * n + j])))
  }

  /** On a single matrix, the flat `multisym` agrees with the matrix one,
      (A + A^T) / 2. */
  lemma {:induction false} SymStackIsSym(n: nat, X: Array)
    requires |X| == n * n
    ensures Reshape(n, SymStack(1, n, X)) == Matrices.Sym(Reshape(n, X))
  {
    var A := Reshape(n, X);
    var L, R := Reshape(n, SymStack(1, n, X)), Matrices.Sym(A);
    forall i, j | 0 <= i < n && 0 <= j < n
      ensures L[i][j] == R[i][j]
    {
      SwapAt(1, n, 0, i, j);
      assert At(n, 0, i, j) == i * n + j && At(n, 0, j, i) == j * n + i;
    }
    Matrices.Ext(L, R, n, n);
  }

  // ---------------------------------------------------------------------
  // Operations shared by the three classes

  /** An array of the manifold's shape. */
  predicate Conforms(M: Manifold, X: Array)
  {
    |X| == Size(M.shape)
  }

  /** The tangent space: the whole space for the general class, symmetric
      or skew-symmetric stacks for the other two. */
  predicate IsTangent(M: Manifold, U: Array)
    requires Valid(M) && Conforms(M, U)
  {
    SizeOfStackGeneral(M);
    match M.kind
    case General => true
    case SymmetricMatrices => IsSymmetricStack(Blocks(M), Side(M), U)
    case SkewSymmetricMatrices => IsSkewStack(Blocks(M), Side(M), U)
  }

  lemma {:induction false} SizeOfStackGeneral(M: Manifold)
    requires Valid(M)
    ensures M.kind != General ==> Size(M.shape) == Blocks(M) * (Side(M) * Side(M))
  {
    if M.kind != General {
      SizeOfStack(M);
    }
  }

  /** `inner(X, G, H)`: the sum of the entrywise products, a full
      `tensordot`. */
  function Inner(G: Array, H: Array): (r: real)
    requires |G| == |H|
    ensures G == H ==> r >= 0.0
  {
    if G == H then
      SumNonNegative(|G|, Products(G, H));
      Sum(|G|, Products(G, H))
    else
      Sum(|G|, Products(G, H))
  }

  /** The entrywise products, as the summand of `Inner`. */
  function Products(G: Array, H: Array): int -> real
  {
    p => if 0 <= p < |G| && p < |H| then G[p] * H[p] else 0.0
  }

  lemma {:induction false} InnerSymmetric(G: Array, H: Array)
    requires |G| == |H|
    ensures Inner(G, H) == Inner(H, G)
  {
    SumExt(|G|, Products(G, H), Products(H, G));
  }

  /** inner(X, G, G), the squared norm, is never negative, and 0 only for
      the zero array. */
  lemma {:induction false} InnerNonNegative(G: Array)
    ensures Inner(G, G) >= 0.0
    ensures Inner(G, G) == 0.0 ==> forall p :: 0 <= p < |G| ==> G[p] == 0.0
  {
    var f := Products(G, G);
    SumNonNegative(|G|, f);
    if Inner(G, G) == 0.0 {
      SumNonNegativeZero(|G|, f);
      forall p | 0 <= p < |G|
        ensures G[p] == 0.0
      {
        assert f(p) == 0.0;
        Matrices.SquareZero(G[p]);
      }
    }
  }

  /** `inner` is additive in its first argument (and, by symmetry, in its
      second): for S == G + H, <S, K> == <G, K> + <H, K>. */
  lemma {:induction false} InnerAdd(G: Array, H: Array, S: Array, K: Array)
    requires |G| == |H| == |S| == |K|
    requires forall p :: 0 <= p < |S| ==> S[p] == G[p] + H[p]
    ensures Inner(S, K) == Inner(G, K) + Inner(H, K)
  {
    forall p | 0 <= p < |S|
      ensures Products(S, K)(p) == Products(G, K)(p) + Products(H, K)(p)
    {
      Matrices.Distrib(K[p], G[p], H[p], S[p]);
    }
    SumAdd(|S|, Products(G, K), Products(H, K), Products(S, K));
  }

  /** `inner` is homogeneous in its first argument (and, by symmetry, in
      its second): for S == c G, <S, K> == c <G, K>. */
  lemma {:induction false} InnerScale(c: real, G: Array, S: Array, K: Array)
    requires |G| == |S| == |K|
    requires forall p :: 0 <= p < |S| ==> S[p] == c * G[p]
    ensures Inner(S, K) == c * Inner(G, K)
  {
    ProductsScale(c, G, S, K);
    InnerOfScaledProducts(c, G, S, K);
  }

  /** `InnerScale`, entry by entry. */
  lemma {:induction false} ProductsScale(c: real, G: Array, S: Array, K: Array)
    requires |G| == |S| == |K|
    requires forall p :: 0 <= p < |S| ==> S[p] == c * G[p]
    ensures forall p :: 0 <= p < |S| ==> Products(S, K)(p) == c * Products(G, K)(p)
  {
    forall p | 0 <= p < |S|
      ensures Products(S, K)(p) == c * Products(G, K)(p)
    {
      Matrices.ScaleTimes(c, G[p], K[p], S[p]);
    }
  }

  /** Entries scaled one by one scale the whole inner product. */
  lemma {:induction false} InnerOfScaledProducts(c: real, G: Array, S: Array, K: Array)
    requires |G| == |S| == |K|
    requires forall p :: 0 <= p < |S| ==> Products(S, K)(p) == c * Products(G, K)(p)
    ensures Inner(S, K) == c * Inner(G, K)
  {
    SumScaleTo(|S|, c, Products(G, K), Products(S, K), Inner(G, K), Inner(S, K));
  }

  /** `proj(X, U)`: the identity on the general class, `multisym` and
      `multiskew` on the other two. */
  function Proj(M: Manifold, X: Array, U: Array): (r: Array)
    requires Valid(M) && Conforms(M, U)
    ensures Conforms(M, r) && IsTangent(M, r)
    ensures M.kind == General ==> r == U
  {
    SizeOfStackGeneral(M);
    match M.kind
    case General => U
    case SymmetricMatrices => SymStack(Blocks(M), Side(M), U)
    case SkewSymmetricMatrices => SkewStack(Blocks(M), Side(M), U)
  }

  /** `proj` fixes exactly the tangent vectors. */
  lemma {:induction false} ProjFixedIff(M: Manifold, X: Array, U: Array)
    requires Valid(M) && Conforms(M, U)
    ensures Proj(M, X, U) == U <==> IsTangent(M, U)
  {
    SizeOfStackGeneral(M);
    match M.kind
    case General =>
    case SymmetricMatrices => SymStackFixedIff(Blocks(M), Side(M), U);
    case SkewSymmetricMatrices => SkewStackFixedIff(Blocks(M), Side(M), U);
  }

  /** `proj` is the orthogonal projection onto the tangent space: for every
      tangent V, <proj(X, U), V> == <U, V>. */
  lemma {:induction false} ProjOrthogonal(M: Manifold, X: Array, U: Array, V: Array)
    requires Valid(M) && Conforms(M, U) && Conforms(M, V)
    requires IsTangent(M, V)
    ensures Inner(Proj(M, X, U), V) == Inner(U, V)
  {
    SizeOfStackGeneral(M);
    match M.kind
    case General =>
    case SymmetricMatrices => SymStackPairing(Blocks(M), Side(M), U, V);
    case SkewSymmetricMatrices => SkewStackPairing(Blocks(M), Side(M), U, V);
  }

  /** `proj` is idempotent. */
  lemma {:induction false} ProjIdempotent(M: Manifold, X: Array, U: Array)
    requires Valid(M) && Conforms(M, U)
    ensures Proj(M, X, Proj(M, X, U)) == Proj(M, X, U)
  {
    ProjFixedIff(M, X, Proj(M, X, U));
  }

  /** `ehess2rhess(X, egrad, ehess, H)`: the Euclidean Hessian itself,
      symmetrised or skew-symmetrised on the matrix classes. */
  function EHess2RHess(M: Manifold, X: Array, egrad: Array, ehess: Array, H: Array): (r: Array)
    requires Valid(M) && Conforms(M, ehess)
    ensures Conforms(M, r) && IsTangent(M, r)
    ensures r == Proj(M, X, ehess)
    ensures IsTangent(M, ehess) ==> r == ehess
  {
    ProjFixedIff(M, X, ehess);
    SizeOfStackGeneral(M);
    match M.kind
    case General => ehess
    case SymmetricMatrices => SymStack(Blocks(M), Side(M), ehess)
    case SkewSymmetricMatrices => SkewStack(Blocks(M), Side(M), ehess)
  }

  /** `exp(X, U)` and `retr(X, U)` (the same function): X + U. */
  function Exp(X: Array, U: Array): (Y: Array)
    requires |X| == |U|
    ensures |Y| == |X| && forall p :: 0 <= p < |X| ==> Y[p] - X[p] == U[p]
  {
    seq(|X|, p requires 0 <= p < |X| => X[p] + U[p])
  }

  /** `log(X, Y)`: Y - X. */
  function Log(X: Array, Y: Array): (U: Array)
    requires |X| == |Y|
    ensures |U| == |X| && forall p :: 0 <= p < |X| ==> X[p] + U[p] == Y[p]
  {
    seq(|X|, p requires 0 <= p < |X| => Y[p] - X[p])
  }

  /** `log` undoes `exp` ... */
  lemma {:induction false} LogExp(X: Array, U: Array)
    requires |X| == |U|
    ensures Log(X, Exp(X, U)) == U
  {
  }

  /** ... and `exp` undoes `log`. */
  lemma {:induction false} ExpLog(X: Array, Y: Array)
    requires |X| == |Y|
    ensures Exp(X, Log(X, Y)) == Y
  {
  }

  /** `transp(X1, X2, G)`: tangent spaces do not depend on the point, so
      the vector is carried over unchanged. */
  function Transp(M: Manifold, X1: Array, X2: Array, G: Array): (r: Array)
    requires Valid(M) && Conforms(M, G)
    ensures r == G
    ensures IsTangent(M, G) ==> IsTangent(M, r) && Proj(M, X2, r) == r
  {
    ProjFixedIff(M, X2, G);
    G
  }

  /** `pairmean(X, Y)`: (X + Y) / 2. */
  function PairMean(X: Array, Y: Array): (Z: Array)
    requires |X| == |Y|
    ensures |Z| == |X|
    ensures Log(X, Z) == Log(Z, Y)
  {
    seq(|X|, p requires 0 <= p < |X| => (X[p] + Y[p]) / 2.0)
  }

  /** The mean does not depend on the order of its arguments, and the mean
      of a point with itself is that point. */
  lemma {:induction false} PairMeanSymmetric(X: Array, Y: Array)
    requires |X| == |Y|
    ensures PairMean(X, Y) == PairMean(Y, X)
    ensures PairMean(X, X) == X
  {
  }

  /** `zerovec(X)`: zeros of the manifold's shape. */
  function ZeroVec(M: Manifold, X: Array): (Z: Array)
    ensures Conforms(M, Z)
    ensures forall p :: 0 <= p < |Z| ==> Z[p] == 0.0
  {
    seq(Size(M.shape), p => 0.0)
  }

  /** The zero vector is tangent, orthogonal to every vector, and `exp`
      along it stays put. */
  lemma {:induction false} ZeroVecProperties(M: Manifold, X: Array, H: Array)
    requires Valid(M) && Conforms(M, X) && Conforms(M, H)
    ensures IsTangent(M, ZeroVec(M, X))
    ensures Inner(ZeroVec(M, X), H) == 0.0
    ensures Exp(X, ZeroVec(M, X)) == X
  {
    var Z := ZeroVec(M, X);
    SumZero(|Z|, Products(Z, H));
    SizeOfStackGeneral(M);
  }
}

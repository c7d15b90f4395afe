/** Dense real matrices as sequences of rows, with the handful of NumPy
    operations the manifolds are written in: `@`, `.T`, `+`, `-`, scalar
    `*`, broadcasting by a row or column vector, `np.hstack`, `np.diag`,
    `np.eye`, `np.zeros`, and the `multisym`/`multiskew` helpers. */
module Matrices {
  import opened Sums

  type Matrix = seq<seq<real>>

  /** A has r rows of c entries each. */
  predicate IsMatrix(A: Matrix, r: nat, c: nat)
  {
    |A| == r && forall i :: 0 <= i < r ==> |A[i]| == c
  }

  /** The number of columns (a matrix without rows is taken to have none). */
  function Cols(A: Matrix): nat
  {
    if |A| == 0 then 0 else |A[0]|
  }

  /** All rows of A have the same length. */
  predicate Rect(A: Matrix)
  {
    IsMatrix(A, |A|, Cols(A))
  }

  /** A[i][j] where it exists, 0 elsewhere (used inside sums). */
  function Entry(A: Matrix, i: int, j: int): real
  {
    if 0 <= i < |A| && 0 <= j < |A[i]| then A[i][j] else 0.0
  }

  predicate IsSymmetric(A: Matrix)
  {
    forall i, j :: 0 <= i < |A| && 0 <= j < |A| ==> Entry(A, i, j) == Entry(A, j, i)
  }

  predicate IsSkewSymmetric(A: Matrix)
  {
    forall i, j :: 0 <= i < |A| && 0 <= j < |A| ==> Entry(A, i, j) == -Entry(A, j, i)
  }

  /** `np.zeros((r, c))` */
  function Zeros(r: nat, c: nat): (Z: Matrix)
    ensures IsMatrix(Z, r, c)
    ensures forall i, j :: 0 <= i < r && 0 <= j < c ==> Z[i][j] == 0.0
  {
    seq(r, i => seq(c, j => 0.0))
  }

  /** `np.eye(n)` */
  function Identity(n: nat): (E: Matrix)
    ensures IsMatrix(E, n, n)
    ensures forall i, j :: 0 <= i < n && 0 <= j < n ==> E[i][j] == if i == j then 1.0 else 0.0
  {
    seq(n, i => seq(n, j => if i == j then 1.0 else 0.0))
  }

  /** `A + B` */
  function Add(A: Matrix, B: Matrix): (C: Matrix)
    requires Rect(A) && IsMatrix(B, |A|, Cols(A))
    ensures IsMatrix(C, |A|, Cols(A))
    ensures forall i, j :: 0 <= i < |A| && 0 <= j < Cols(A) ==> C[i][j] == A[i][j] + B[i][j]
  {
    seq(|A|, i requires 0 <= i < |A| => seq(Cols(A), j requires 0 <= j < Cols(A) => A[i][j] + B[i][j]))
  }

  /** `A - B` */
  function Sub(A: Matrix, B: Matrix): (C: Matrix)
    requires Rect(A) && IsMatrix(B, |A|, Cols(A))
    ensures IsMatrix(C, |A|, Cols(A))
    ensures forall i, j :: 0 <= i < |A| && 0 <= j < Cols(A) ==> C[i][j] == A[i][j] - B[i][j]
  {
    seq(|A|, i requires 0 <= i < |A| => seq(Cols(A), j requires 0 <= j < Cols(A) => A[i][j] - B[i][j]))
  }

  /** `c * A` */
  function Scale(c: real, A: Matrix): (C: Matrix)
    requires Rect(A)
    ensures IsMatrix(C, |A|, Cols(A))
    ensures forall i, j :: 0 <= i < |A| && 0 <= j < Cols(A) ==> C[i][j] == c * A[i][j]
  {
    seq(|A|, i requires 0 <= i < |A| => seq(Cols(A), j requires 0 <= j < Cols(A) => c * A[i][j]))
  }

  /** `-A` */
  function Neg(A: Matrix): (C: Matrix)
    requires Rect(A)
    ensures IsMatrix(C, |A|, Cols(A))
    ensures forall i, j :: 0 <= i < |A| && 0 <= j < Cols(A) ==> C[i][j] == -A[i][j]
  {
    seq(|A|, i requires 0 <= i < |A| => seq(Cols(A), j requires 0 <= j < Cols(A) => -A[i][j]))
  }

  /** `A.T` */
  function Transpose(A: Matrix): (T: Matrix)
    requires Rect(A)
    ensures IsMatrix(T, Cols(A), |A|)
    ensures forall i, j :: 0 <= i < Cols(A) && 0 <= j < |A| ==> T[i][j] == A[j][i]
  {
    seq(Cols(A), i requires 0 <= i < Cols(A) => seq(|A|, j requires 0 <= j < |A| => A[j][i]))
  }

  /** Row i of A times column j of B, summed over the |B| rows of B. */
  function Dot(A: Matrix, i: int, B: Matrix, j: int): real
  {
    Sum(|B|, l => Entry(A, i, l) * Entry(B, l, j))
  }

  /** `A @ B` */
  function Mul(A: Matrix, B: Matrix): (C: Matrix)
    requires Rect(A) && Rect(B) && Cols(A) == |B|
    ensures IsMatrix(C, |A|, Cols(B))
    ensures forall i, j :: 0 <= i < |A| && 0 <= j < Cols(B) ==> C[i][j] == Dot(A, i, B, j)
  {
    seq(|A|, i => seq(Cols(B), j => Dot(A, i, B, j)))
  }

  /** `multisym(A)`, that is (A + A.T) / 2. */
  function Sym(A: Matrix): (S: Matrix)
    requires IsMatrix(A, |A|, |A|)
    ensures IsMatrix(S, |A|, |A|)
    ensures forall i, j :: 0 <= i < |A| && 0 <= j < |A| ==> S[i][j] == (A[i][j] + A[j][i]) / 2.0
  {
    seq(|A|, i requires 0 <= i < |A| => seq(|A|, j requires 0 <= j < |A| => (A[i][j] + A[j][i]) / 2.0))
  }

  /** `np.hstack((A, B))`: the columns of A followed by those of B. */
  function HStack(A: Matrix, B: Matrix): (C: Matrix)
    requires Rect(A) && Rect(B) && |A| == |B|
    ensures IsMatrix(C, |A|, Cols(A) + Cols(B))
    ensures forall i, j :: 0 <= i < |A| && 0 <= j < Cols(A) ==> C[i][j] == A[i][j]
    ensures forall i, j :: 0 <= i < |A| && Cols(A) <= j < Cols(A) + Cols(B) ==> C[i][j] == B[i][j - Cols(A)]
  {
    seq(|A|, i requires 0 <= i < |A| => A[i] + B[i])
  }

  /** `np.diag(v)` for a vector v: the square matrix with v on its diagonal. */
  function DiagMatrix(v: seq<real>): (D: Matrix)
    ensures IsMatrix(D, |v|, |v|)
    ensures forall i, j :: 0 <= i < |v| && 0 <= j < |v| ==> D[i][j] == if i == j then v[i] else 0.0
  {
    seq(|v|, i requires 0 <= i < |v| => seq(|v|, j => if i == j then v[i] else 0.0))
  }

  /** `np.diag(A)` for a matrix A: its main diagonal. */
  function Diagonal(A: Matrix): (d: seq<real>)
    requires Rect(A)
    ensures |d| == if |A| <= Cols(A) then |A| else Cols(A)
    ensures forall i :: 0 <= i < |d| ==> d[i] == A[i][i]
  {
    seq(if |A| <= Cols(A) then |A| else Cols(A), i requires 0 <= i < |A| && i < Cols(A) => A[i][i])
  }

  /** `A * B` for two matrices of one shape: the entrywise product. */
  function Hadamard(A: Matrix, B: Matrix): (C: Matrix)
    requires Rect(A) && IsMatrix(B, |A|, Cols(A))
    ensures IsMatrix(C, |A|, Cols(A))
    ensures forall i, j :: 0 <= i < |A| && 0 <= j < Cols(A) ==> C[i][j] == A[i][j] * B[i][j]
  {
    seq(|A|, i requires 0 <= i < |A| => seq(Cols(A), j requires 0 <= j < Cols(A) => A[i][j] * B[i][j]))
  }

  /** `A * s` for a vector s: column j of A is multiplied by s[j]. */
  function MulCols(A: Matrix, s: seq<real>): (C: Matrix)
    requires Rect(A) && |s| == Cols(A)
    ensures IsMatrix(C, |A|, Cols(A))
    ensures forall i, j :: 0 <= i < |A| && 0 <= j < Cols(A) ==> C[i][j] == A[i][j] * s[j]
  {
    seq(|A|, i requires 0 <= i < |A| => seq(Cols(A), j requires 0 <= j < Cols(A) => A[i][j] * s[j]))
  }

  /** `s[:, np.newaxis] * A`: row i of A is multiplied by s[i]. */
  function MulRows(s: seq<real>, A: Matrix): (C: Matrix)
    requires Rect(A) && |s| == |A|
    ensures IsMatrix(C, |A|, Cols(A))
    ensures forall i, j :: 0 <= i < |A| && 0 <= j < Cols(A) ==> C[i][j] == s[i] * A[i][j]
  {
    seq(|A|, i requires 0 <= i < |A| => seq(Cols(A), j requires 0 <= j < Cols(A) => s[i] * A[i][j]))
  }

  /** `A / s` for a vector s without zeros: column j of A is divided by s[j]. */
  function DivCols(A: Matrix, s: seq<real>): (C: Matrix)
    requires Rect(A) && |s| == Cols(A)
    requires forall j :: 0 <= j < |s| ==> s[j] != 0.0
    ensures IsMatrix(C, |A|, Cols(A))
    ensures forall i, j :: 0 <= i < |A| && 0 <= j < Cols(A) ==> C[i][j] == A[i][j] / s[j]
  {
    seq(|A|, i requires 0 <= i < |A| => seq(Cols(A), j requires 0 <= j < Cols(A) => A[i][j] / s[j]))
  }

  /** `np.tensordot(G, H)` of two matrices of one shape: the Frobenius inner
      product, the sum of the entrywise products. */
  function Frobenius(G: Matrix, H: Matrix): real
  {
    Sum(|G|, i => RowProduct(G, H, i))
  }

  /** The contribution of row i to the Frobenius inner product. */
  function RowProduct(G: Matrix, H: Matrix, i: int): real
  {
    Sum(Cols(G), j => Entry(G, i, j) * Entry(H, i, j))
  }

  // ---------------------------------------------------------------------
  // Algebraic laws

  /** Matrices of one shape with the same entries are equal. */
  lemma {:induction false} Ext(A: Matrix, B: Matrix, r: nat, c: nat)
    requires IsMatrix(A, r, c) && IsMatrix(B, r, c)
    requires forall i, j :: 0 <= i < r && 0 <= j < c ==> A[i][j] == B[i][j]
    ensures A == B
  {
    forall i | 0 <= i < r
      ensures A[i] == B[i]
    {
    }
  }

  /** The summand A[i][t] (B[t][l] C[l][j]) of both sides of associativity. */
  function Term(A: Matrix, B: Matrix, C: Matrix, i: int, j: int, l: int, t: int): real
  {
    Entry(A, i, t) * (Entry(B, t, l) * Entry(C, l, j))
  }

  /** sum_{t < m} Term(.., l, t) */
  function TermRow(A: Matrix, B: Matrix, C: Matrix, i: int, j: int, m: nat, l: int): real
  {
    Sum(m, t => Term(A, B, C, i, j, l, t))
  }

  /** sum_{l < n} Term(.., l, t) */
  function TermCol(A: Matrix, B: Matrix, C: Matrix, i: int, j: int, n: nat, t: int): real
  {
    Sum(n, l => Term(A, B, C, i, j, l, t))
  }

  /** The double sum of Term can be taken in either order. */
  lemma {:induction false} TermSwap(A: Matrix, B: Matrix, C: Matrix, i: int, j: int, n: nat, m: nat)
    ensures Sum(n, l => TermRow(A, B, C, i, j, m, l)) == Sum(m, t => TermCol(A, B, C, i, j, n, t))
  {
    if n > 0 {
      TermSwap(A, B, C, i, j, n - 1, m);
      SumAdd(m, t => TermCol(A, B, C, i, j, n - 1, t), t => Term(A, B, C, i, j, n - 1, t),
        t => TermCol(A, B, C, i, j, n, t));
    } else {
      SumZero(m, t => TermCol(A, B, C, i, j, n, t));
    }
  }

  lemma {:induction false} DotTimesEntry(A: Matrix, B: Matrix, C: Matrix, i: int, j: int, l: int)
    ensures Dot(A, i, B, l) * Entry(C, l, j) == TermRow(A, B, C, i, j, |B|, l)
  {
    forall t
      ensures Term(A, B, C, i, j, l, t) == Entry(C, l, j) * (Entry(A, i, t) * Entry(B, t, l))
    {
      var x, y, z := Entry(A, i, t), Entry(B, t, l), Entry(C, l, j);
      assert x * (y * z) == z * (x * y);
    }
    SumScale(|B|, Entry(C, l, j), t => Entry(A, i, t) * Entry(B, t, l), t => Term(A, B, C, i, j, l, t));
  }

  lemma {:induction false} EntryTimesDot(A: Matrix, B: Matrix, C: Matrix, i: int, j: int, t: int)
    ensures Entry(A, i, t) * Dot(B, t, C, j) == TermCol(A, B, C, i, j, |C|, t)
  {
    SumScale(|C|, Entry(A, i, t), l => Entry(B, t, l) * Entry(C, l, j), l => Term(A, B, C, i, j, l, t));
  }

  lemma {:induction false} DotAssocLeft(A: Matrix, B: Matrix, C: Matrix, i: int, j: int)
    ensures Sum(|C|, l => Dot(A, i, B, l) * Entry(C, l, j))
         == Sum(|C|, l => TermRow(A, B, C, i, j, |B|, l))
  {
    var f, g := l => Dot(A, i, B, l) * Entry(C, l, j), l => TermRow(A, B, C, i, j, |B|, l);
    forall l | 0 <= l < |C|
      ensures f(l) == g(l)
    {
      DotTimesEntry(A, B, C, i, j, l);
    }
    SumExt(|C|, f, g);
  }

  lemma {:induction false} DotAssocRight(A: Matrix, B: Matrix, C: Matrix, i: int, j: int)
    ensures Sum(|B|, t => TermCol(A, B, C, i, j, |C|, t))
         == Sum(|B|, t => Entry(A, i, t) * Dot(B, t, C, j))
  {
    var f, g := t => TermCol(A, B, C, i, j, |C|, t), t => Entry(A, i, t) * Dot(B, t, C, j);
    forall t | 0 <= t < |B|
      ensures f(t) == g(t)
    {
      EntryTimesDot(A, B, C, i, j, t);
    }
    SumExt(|B|, f, g);
  }

  /** Associativity of `@`, one entry at a time:
      sum_l (sum_t A[i][t] B[t][l]) C[l][j] == sum_t A[i][t] (sum_l B[t][l] C[l][j]). */
  lemma {:induction false} DotAssoc(A: Matrix, B: Matrix, C: Matrix, i: int, j: int)
    ensures Sum(|C|, l => Dot(A, i, B, l) * Entry(C, l, j))
         == Sum(|B|, t => Entry(A, i, t) * Dot(B, t, C, j))
  {
    DotAssocLeft(A, B, C, i, j);
    TermSwap(A, B, C, i, j, |C|, |B|);
    DotAssocRight(A, B, C, i, j);
  }

  /** Entry (i, j) of `A @ B`, through the total accessor. */
  lemma {:induction false} EntryMul(A: Matrix, B: Matrix, i: int, j: int)
    requires Rect(A) && Rect(B) && Cols(A) == |B|
    requires 0 <= i < |A| && 0 <= j < Cols(B)
    ensures Entry(Mul(A, B), i, j) == Dot(A, i, B, j)
  {
  }

  /** Equal factors give equal products (stated once so that the solver does
      not have to rediscover it inside a sum). */
  lemma {:induction false} CongrTimes(x: real, y: real, z: real)
    requires x == y
    ensures x * z == y * z && z * x == z * y
  {
  }

  /** x (y + z) == x y + x z and (y + z) x == y x + z x, for w == y + z. */
  lemma {:induction false} Distrib(x: real, y: real, z: real, w: real)
    requires w == y + z
    ensures x * w == x * y + x * z && w * x == y * x + z * x
    ensures x * w == x * y - x * -z && w * x == y * x - -z * x
  {
  }

  /** x (y / s) == (1 / s) (x y). */
  lemma {:induction false} DivTimes(x: real, y: real, s: real, w: real)
    requires s != 0.0 && w == y / s
    ensures x * w == (1.0 / s) * (x * y)
    ensures w == (1.0 / s) * y
  {
  }

  /** Replacing row i of the left factor by equal entries leaves the dot products alone. */
  lemma {:induction false} DotRowCongr(P: Matrix, A: Matrix, B: Matrix, C: Matrix, i: int, j: int)
    requires forall l :: 0 <= l < |C| ==> Entry(P, i, l) == Dot(A, i, B, l)
    ensures Dot(P, i, C, j) == Sum(|C|, l => Dot(A, i, B, l) * Entry(C, l, j))
  {
    var f, f' := l => Entry(P, i, l) * Entry(C, l, j), l => Dot(A, i, B, l) * Entry(C, l, j);
    forall l | 0 <= l < |C|
      ensures f(l) == f'(l)
    {
      CongrTimes(Entry(P, i, l), Dot(A, i, B, l), Entry(C, l, j));
    }
    SumExt(|C|, f, f');
  }

  /** Replacing column j of the right factor by equal entries leaves the dot products alone. */
  lemma {:induction false} DotColCongr(A: Matrix, Q: Matrix, B: Matrix, C: Matrix, i: int, j: int)
    requires |Q| == |B|
    requires forall t :: 0 <= t < |B| ==> Entry(Q, t, j) == Dot(B, t, C, j)
    ensures Dot(A, i, Q, j) == Sum(|B|, t => Entry(A, i, t) * Dot(B, t, C, j))
  {
    var g, g' := t => Entry(A, i, t) * Entry(Q, t, j), t => Entry(A, i, t) * Dot(B, t, C, j);
    forall t | 0 <= t < |B|
      ensures g(t) == g'(t)
    {
      CongrTimes(Entry(Q, t, j), Dot(B, t, C, j), Entry(A, i, t));
    }
    SumExt(|B|, g, g');
  }

  lemma {:induction false} MulAssocEntry(A: Matrix, B: Matrix, C: Matrix, i: int, j: int)
    requires Rect(A) && Rect(B) && Rect(C) && Cols(A) == |B| && Cols(B) == |C|
    requires 0 <= i < |A| && 0 <= j < Cols(C)
    ensures Mul(Mul(A, B), C)[i][j] == Mul(A, Mul(B, C))[i][j]
  {
    var AB, BC := Mul(A, B), Mul(B, C);
    forall l | 0 <= l < |C|
      ensures Entry(AB, i, l) == Dot(A, i, B, l)
    {
      EntryMul(A, B, i, l);
    }
    forall t | 0 <= t < |B|
      ensures Entry(BC, t, j) == Dot(B, t, C, j)
    {
      EntryMul(B, C, t, j);
    }
    DotRowCongr(AB, A, B, C, i, j);
    DotAssoc(A, B, C, i, j);
    DotColCongr(A, BC, B, C, i, j);
  }

  /** `(A @ B) @ C == A @ (B @ C)` */
  lemma {:induction false} MulAssoc(A: Matrix, B: Matrix, C: Matrix)
    requires Rect(A) && Rect(B) && Rect(C) && Cols(A) == |B| && Cols(B) == |C|
    requires |B| > 0 && |C| > 0
    ensures Mul(Mul(A, B), C) == Mul(A, Mul(B, C))
  {
    forall i, j | 0 <= i < |A| && 0 <= j < Cols(C)
      ensures Mul(Mul(A, B), C)[i][j] == Mul(A, Mul(B, C))[i][j]
    {
      MulAssocEntry(A, B, C, i, j);
    }
    Ext(Mul(Mul(A, B), C), Mul(A, Mul(B, C)), |A|, Cols(C));
  }

  /** `(A @ B).T == B.T @ A.T` */
  lemma {:induction false} TransposeMul(A: Matrix, B: Matrix)
    requires Rect(A) && Rect(B) && Cols(A) == |B|
    requires |A| > 0 && |B| > 0 && Cols(B) > 0
    ensures Transpose(Mul(A, B)) == Mul(Transpose(B), Transpose(A))
  {
    var L, R := Transpose(Mul(A, B)), Mul(Transpose(B), Transpose(A));
    forall i, j | 0 <= i < Cols(B) && 0 <= j < |A|
      ensures L[i][j] == R[i][j]
    {
      SumExt(|B|, l => Entry(A, j, l) * Entry(B, l, i),
        l => Entry(Transpose(B), i, l) * Entry(Transpose(A), l, j));
    }
    Ext(L, R, Cols(B), |A|);
  }

  lemma {:induction false} TransposeTranspose(A: Matrix)
    requires Rect(A) && Cols(A) > 0
    ensures Transpose(Transpose(A)) == A
  {
    Ext(Transpose(Transpose(A)), A, |A|, Cols(A));
  }

  /** Linearity of one entry of a product in each factor. */
  lemma {:induction false} DotAddRight(A: Matrix, B: Matrix, C: Matrix, i: int, j: int)
    requires Rect(B) && IsMatrix(C, |B|, Cols(B)) && 0 <= j < Cols(B)
    ensures Dot(A, i, Add(B, C), j) == Dot(A, i, B, j) + Dot(A, i, C, j)
  {
    var f, g := l => Entry(A, i, l) * Entry(B, l, j), l => Entry(A, i, l) * Entry(C, l, j);
    var h := l => Entry(A, i, l) * Entry(Add(B, C), l, j);
    forall l | 0 <= l < |B|
      ensures h(l) == f(l) + g(l)
    {
      Distrib(Entry(A, i, l), Entry(B, l, j), Entry(C, l, j), Entry(Add(B, C), l, j));
    }
    SumAdd(|B|, f, g, h);
  }

  lemma {:induction false} DotSubRight(A: Matrix, B: Matrix, C: Matrix, i: int, j: int)
    requires Rect(B) && IsMatrix(C, |B|, Cols(B)) && 0 <= j < Cols(B)
    ensures Dot(A, i, Sub(B, C), j) == Dot(A, i, B, j) - Dot(A, i, C, j)
  {
    var f, g := l => Entry(A, i, l) * Entry(B, l, j), l => Entry(A, i, l) * Entry(C, l, j);
    var h := l => Entry(A, i, l) * Entry(Sub(B, C), l, j);
    forall l | 0 <= l < |B|
      ensures h(l) == f(l) - g(l)
    {
      Distrib(Entry(A, i, l), Entry(B, l, j), -Entry(C, l, j), Entry(Sub(B, C), l, j));
    }
    SumSub(|B|, f, g, h);
  }

  lemma {:induction false} DotAddLeft(A: Matrix, B: Matrix, C: Matrix, i: int, j: int)
    requires Rect(A) && IsMatrix(B, |A|, Cols(A)) && 0 <= i < |A|
    ensures Dot(Add(A, B), i, C, j) == Dot(A, i, C, j) + Dot(B, i, C, j)
  {
    var f, g := l => Entry(A, i, l) * Entry(C, l, j), l => Entry(B, i, l) * Entry(C, l, j);
    var h := l => Entry(Add(A, B), i, l) * Entry(C, l, j);
    forall l | 0 <= l < |C|
      ensures h(l) == f(l) + g(l)
    {
      Distrib(Entry(C, l, j), Entry(A, i, l), Entry(B, i, l), Entry(Add(A, B), i, l));
    }
    SumAdd(|C|, f, g, h);
  }

  lemma {:induction false} DotSubLeft(A: Matrix, B: Matrix, C: Matrix, i: int, j: int)
    requires Rect(A) && IsMatrix(B, |A|, Cols(A)) && 0 <= i < |A|
    ensures Dot(Sub(A, B), i, C, j) == Dot(A, i, C, j) - Dot(B, i, C, j)
  {
    var f, g := l => Entry(A, i, l) * Entry(C, l, j), l => Entry(B, i, l) * Entry(C, l, j);
    var h := l => Entry(Sub(A, B), i, l) * Entry(C, l, j);
    forall l | 0 <= l < |C|
      ensures h(l) == f(l) - g(l)
    {
      Distrib(Entry(C, l, j), Entry(A, i, l), -Entry(B, i, l), Entry(Sub(A, B), i, l));
    }
    SumSub(|C|, f, g, h);
  }

  /** `A @ (B + C) == A @ B + A @ C` */
  lemma {:induction false} MulAddLeft(A: Matrix, B: Matrix, C: Matrix)
    requires Rect(A) && Rect(B) && Cols(A) == |B| && IsMatrix(C, |B|, Cols(B)) && |B| > 0
    ensures Mul(A, Add(B, C)) == Add(Mul(A, B), Mul(A, C))
  {
    forall i, j | 0 <= i < |A| && 0 <= j < Cols(B)
      ensures Mul(A, Add(B, C))[i][j] == Add(Mul(A, B), Mul(A, C))[i][j]
    {
      DotAddRight(A, B, C, i, j);
    }
    Ext(Mul(A, Add(B, C)), Add(Mul(A, B), Mul(A, C)), |A|, Cols(B));
  }

  /** `A @ (B - C) == A @ B - A @ C` */
  lemma {:induction false} MulSubLeft(A: Matrix, B: Matrix, C: Matrix)
    requires Rect(A) && Rect(B) && Cols(A) == |B| && IsMatrix(C, |B|, Cols(B)) && |B| > 0
    ensures Mul(A, Sub(B, C)) == Sub(Mul(A, B), Mul(A, C))
  {
    forall i, j | 0 <= i < |A| && 0 <= j < Cols(B)
      ensures Mul(A, Sub(B, C))[i][j] == Sub(Mul(A, B), Mul(A, C))[i][j]
    {
      DotSubRight(A, B, C, i, j);
    }
    Ext(Mul(A, Sub(B, C)), Sub(Mul(A, B), Mul(A, C)), |A|, Cols(B));
  }

  /** `(A + B) @ C == A @ C + B @ C` */
  lemma {:induction false} MulAddRight(A: Matrix, B: Matrix, C: Matrix)
    requires Rect(A) && IsMatrix(B, |A|, Cols(A)) && Rect(C) && Cols(A) == |C| && |A| > 0
    ensures Mul(Add(A, B), C) == Add(Mul(A, C), Mul(B, C))
  {
    forall i, j | 0 <= i < |A| && 0 <= j < Cols(C)
      ensures Mul(Add(A, B), C)[i][j] == Add(Mul(A, C), Mul(B, C))[i][j]
    {
      DotAddLeft(A, B, C, i, j);
    }
    Ext(Mul(Add(A, B), C), Add(Mul(A, C), Mul(B, C)), |A|, Cols(C));
  }

  /** `(A - B) @ C == A @ C - B @ C` */
  lemma {:induction false} MulSubRight(A: Matrix, B: Matrix, C: Matrix)
    requires Rect(A) && IsMatrix(B, |A|, Cols(A)) && Rect(C) && Cols(A) == |C| && |A| > 0
    ensures Mul(Sub(A, B), C) == Sub(Mul(A, C), Mul(B, C))
  {
    forall i, j | 0 <= i < |A| && 0 <= j < Cols(C)
      ensures Mul(Sub(A, B), C)[i][j] == Sub(Mul(A, C), Mul(B, C))[i][j]
    {
      DotSubLeft(A, B, C, i, j);
    }
    Ext(Mul(Sub(A, B), C), Sub(Mul(A, C), Mul(B, C)), |A|, Cols(C));
  }

  /** `np.eye(r) @ A == A` */
  lemma {:induction false} MulIdentityLeft(A: Matrix)
    requires Rect(A) && |A| > 0
    ensures Mul(Identity(|A|), A) == A
  {
    forall i, j | 0 <= i < |A| && 0 <= j < Cols(A)
      ensures Mul(Identity(|A|), A)[i][j] == A[i][j]
    {
      SumSingle(|A|, l => Entry(Identity(|A|), i, l) * Entry(A, l, j), i);
    }
    Ext(Mul(Identity(|A|), A), A, |A|, Cols(A));
  }

  /** `A @ np.eye(c) == A` */
  lemma {:induction false} MulIdentityRight(A: Matrix)
    requires Rect(A) && Cols(A) > 0
    ensures Mul(A, Identity(Cols(A))) == A
  {
    forall i, j | 0 <= i < |A| && 0 <= j < Cols(A)
      ensures Mul(A, Identity(Cols(A)))[i][j] == A[i][j]
    {
      SumSingle(Cols(A), l => Entry(A, i, l) * Entry(Identity(Cols(A)), l, j), j);
    }
    Ext(Mul(A, Identity(Cols(A))), A, |A|, Cols(A));
  }

  /** `A @ np.zeros((c, d)) == np.zeros((r, d))` */
  lemma {:induction false} MulZerosRight(A: Matrix, d: nat)
    requires Rect(A) && Cols(A) > 0
    ensures Mul(A, Zeros(Cols(A), d)) == Zeros(|A|, d)
  {
    forall i, j | 0 <= i < |A| && 0 <= j < d
      ensures Mul(A, Zeros(Cols(A), d))[i][j] == 0.0
    {
      SumZero(Cols(A), l => Entry(A, i, l) * Entry(Zeros(Cols(A), d), l, j));
    }
    Ext(Mul(A, Zeros(Cols(A), d)), Zeros(|A|, d), |A|, d);
  }

  /** `np.zeros((r, c)) @ B == np.zeros((r, d))` */
  lemma {:induction false} MulZerosLeft(r: nat, B: Matrix)
    requires Rect(B) && |B| > 0 && r > 0
    ensures Mul(Zeros(r, |B|), B) == Zeros(r, Cols(B))
  {
    forall i, j | 0 <= i < r && 0 <= j < Cols(B)
      ensures Mul(Zeros(r, |B|), B)[i][j] == 0.0
    {
      SumZero(|B|, l => Entry(Zeros(r, |B|), i, l) * Entry(B, l, j));
    }
    Ext(Mul(Zeros(r, |B|), B), Zeros(r, Cols(B)), r, Cols(B));
  }

  /** Scaling column j of B by c scales the dot products with that column by c. */
  lemma {:induction false} DotScaleColumn(A: Matrix, B: Matrix, D: Matrix, c: real, i: int, j: int)
    requires |D| == |B|
    requires forall l :: 0 <= l < |B| ==> Entry(D, l, j) == c * Entry(B, l, j)
    ensures Dot(A, i, D, j) == c * Dot(A, i, B, j)
  {
    var f, g := l => Entry(A, i, l) * Entry(B, l, j), l => Entry(A, i, l) * Entry(D, l, j);
    forall l | 0 <= l < |B|
      ensures g(l) == c * f(l)
    {
      TimesScale(Entry(A, i, l), c, Entry(B, l, j), Entry(D, l, j));
    }
    SumScale(|B|, c, f, g);
  }

  /** `A @ (B / s) == (A @ B) / s` */
  lemma {:induction false} DotDivCols(A: Matrix, B: Matrix, s: seq<real>, i: int, j: int)
    requires Rect(B) && |s| == Cols(B) && 0 <= j < |s|
    requires forall j :: 0 <= j < |s| ==> s[j] != 0.0
    ensures Dot(A, i, DivCols(B, s), j) == Dot(A, i, B, j) / s[j]
  {
    var D := DivCols(B, s);
    forall l | 0 <= l < |B|
      ensures Entry(D, l, j) == (1.0 / s[j]) * Entry(B, l, j)
    {
      assert |B[l]| == Cols(B) && |D[l]| == Cols(B);
      DivTimes(1.0, B[l][j], s[j], D[l][j]);
    }
    DotScaleColumn(A, B, D, 1.0 / s[j], i, j);
    DivTimes(1.0, Dot(A, i, B, j), s[j], Dot(A, i, B, j) / s[j]);
  }

  /** `A @ (B / s) == (A @ B) / s` for a column scaling s with no zero entry. */
  lemma {:induction false} MulDivCols(A: Matrix, B: Matrix, s: seq<real>)
    requires Rect(A) && Rect(B) && Cols(A) == |B| && |B| > 0 && |s| == Cols(B)
    requires forall j :: 0 <= j < |s| ==> s[j] != 0.0
    ensures Mul(A, DivCols(B, s)) == DivCols(Mul(A, B), s)
  {
    forall i, j | 0 <= i < |A| && 0 <= j < Cols(B)
      ensures Mul(A, DivCols(B, s))[i][j] == DivCols(Mul(A, B), s)[i][j]
    {
      DotDivCols(A, B, s, i, j);
    }
    Ext(Mul(A, DivCols(B, s)), DivCols(Mul(A, B), s), |A|, Cols(B));
  }

  /** `A @ (B * s) == (A @ B) * s` for a column scaling s. */
  lemma {:induction false} MulMulCols(A: Matrix, B: Matrix, s: seq<real>)
    requires Rect(A) && Rect(B) && Cols(A) == |B| && |A| > 0 && |B| > 0 && |s| == Cols(B)
    ensures Mul(A, MulCols(B, s)) == MulCols(Mul(A, B), s)
  {
    var D := MulCols(B, s);
    forall i, j | 0 <= i < |A| && 0 <= j < Cols(B)
      ensures Mul(A, D)[i][j] == MulCols(Mul(A, B), s)[i][j]
    {
      forall l | 0 <= l < |B|
        ensures Entry(D, l, j) == s[j] * Entry(B, l, j)
      {
      }
      DotScaleColumn(A, B, D, s[j], i, j);
    }
    Ext(Mul(A, D), MulCols(Mul(A, B), s), |A|, Cols(B));
  }

  /** `(s[:, np.newaxis] * A).T == A.T * s` */
  lemma {:induction false} TransposeMulRows(s: seq<real>, A: Matrix)
    requires Rect(A) && |s| == |A| && |A| > 0 && Cols(A) > 0
    ensures Transpose(MulRows(s, A)) == MulCols(Transpose(A), s)
  {
    Ext(Transpose(MulRows(s, A)), MulCols(Transpose(A), s), Cols(A), |A|);
  }

  /** (a x - b x) / x == a - b for x != 0 */
  lemma {:induction false} ScaledDifference(a: real, b: real, x: real)
    requires x != 0.0
    ensures (a * x - b * x) / x == a - b
  {
    assert a * x - b * x == (a - b) * x;
  }

  /** `(A * s - B * s) / s == A - B` for a column scaling s without zeros. */
  lemma {:induction false} DivColsSubMulCols(A: Matrix, B: Matrix, s: seq<real>)
    requires Rect(A) && IsMatrix(B, |A|, Cols(A)) && |A| > 0 && |s| == Cols(A)
    requires forall j :: 0 <= j < |s| ==> s[j] != 0.0
    ensures DivCols(Sub(MulCols(A, s), MulCols(B, s)), s) == Sub(A, B)
  {
    var L := DivCols(Sub(MulCols(A, s), MulCols(B, s)), s);
    forall i, j | 0 <= i < |A| && 0 <= j < Cols(A)
      ensures L[i][j] == Sub(A, B)[i][j]
    {
      ScaledDifference(A[i][j], B[i][j], s[j]);
    }
    Ext(L, Sub(A, B), |A|, Cols(A));
  }

  /** The shape assumptions shared by the `np.hstack` lemmas. */
  predicate HStackable(A: Matrix, B: Matrix, C: Matrix, D: Matrix)
  {
    Rect(A) && Rect(B) && Rect(C) && Rect(D) && |A| == |B| && |C| == |D|
    && Cols(C) == Cols(A) && Cols(D) == Cols(B)
  }

  lemma {:induction false} HStackEntryLeft(A: Matrix, B: Matrix, C: Matrix, D: Matrix, i: int, j: int, l: int)
    requires HStackable(A, B, C, D)
    requires 0 <= i < |A| && 0 <= j < |C| && 0 <= l < Cols(A)
    ensures Entry(HStack(A, B), i, l) * Entry(Transpose(HStack(C, D)), l, j)
         == Entry(A, i, l) * Entry(Transpose(C), l, j)
  {
    var H, K := HStack(A, B), HStack(C, D);
    assert H[i][l] == A[i][l];
    assert Transpose(K)[l][j] == K[j][l] == C[j][l] == Transpose(C)[l][j];
  }

  lemma {:induction false} HStackEntryRight(A: Matrix, B: Matrix, C: Matrix, D: Matrix, i: int, j: int, l: int)
    requires HStackable(A, B, C, D)
    requires 0 <= i < |A| && 0 <= j < |C| && 0 <= l < Cols(B)
    ensures Entry(HStack(A, B), i, Cols(A) + l) * Entry(Transpose(HStack(C, D)), Cols(A) + l, j)
         == Entry(B, i, l) * Entry(Transpose(D), l, j)
  {
    var H, K, a := HStack(A, B), HStack(C, D), Cols(A);
    assert H[i][a + l] == B[i][l];
    assert Transpose(K)[a + l][j] == K[j][a + l] == D[j][l] == Transpose(D)[l][j];
  }

  /** A dot product over a + b terms whose first a terms are those of one dot
      product and whose last b terms are those of another is their sum. */
  lemma {:induction false} DotSplit(H: Matrix, K: Matrix, A: Matrix, C: Matrix, B: Matrix, D: Matrix, i: int, j: int)
    requires |K| == |C| + |D|
    requires forall l :: 0 <= l < |C| ==> Entry(H, i, l) * Entry(K, l, j) == Entry(A, i, l) * Entry(C, l, j)
    requires forall l :: 0 <= l < |D| ==>
      Entry(H, i, |C| + l) * Entry(K, |C| + l, j) == Entry(B, i, l) * Entry(D, l, j)
    ensures Dot(H, i, K, j) == Dot(A, i, C, j) + Dot(B, i, D, j)
  {
    var f := l => Entry(H, i, l) * Entry(K, l, j);
    var g := l => Entry(A, i, l) * Entry(C, l, j);
    var f', h := l => f(|C| + l), l => Entry(B, i, l) * Entry(D, l, j);
    SplitSum(|C|, |D|, f);
    SumExt(|C|, f, g);
    SumExt(|D|, f', h);
  }

  lemma {:induction false} HStackDot(A: Matrix, B: Matrix, C: Matrix, D: Matrix, i: int, j: int)
    requires HStackable(A, B, C, D)
    requires 0 <= i < |A| && 0 <= j < |C|
    ensures Dot(HStack(A, B), i, Transpose(HStack(C, D)), j)
         == Dot(A, i, Transpose(C), j) + Dot(B, i, Transpose(D), j)
  {
    forall l | 0 <= l < Cols(A)
      ensures Entry(HStack(A, B), i, l) * Entry(Transpose(HStack(C, D)), l, j)
           == Entry(A, i, l) * Entry(Transpose(C), l, j)
    {
      HStackEntryLeft(A, B, C, D, i, j, l);
    }
    forall l | 0 <= l < Cols(B)
      ensures Entry(HStack(A, B), i, Cols(A) + l) * Entry(Transpose(HStack(C, D)), Cols(A) + l, j)
           == Entry(B, i, l) * Entry(Transpose(D), l, j)
    {
      HStackEntryRight(A, B, C, D, i, j, l);
    }
    DotSplit(HStack(A, B), Transpose(HStack(C, D)), A, Transpose(C), B, Transpose(D), i, j);
  }

  /** `np.hstack((A, B)) @ np.hstack((C, D)).T == A @ C.T + B @ D.T` */
  lemma {:induction false} HStackMul(A: Matrix, B: Matrix, C: Matrix, D: Matrix)
    requires HStackable(A, B, C, D)
    requires |A| > 0 && |C| > 0 && Cols(A) > 0 && Cols(B) > 0
    ensures Mul(HStack(A, B), Transpose(HStack(C, D)))
         == Add(Mul(A, Transpose(C)), Mul(B, Transpose(D)))
  {
    var L := Mul(HStack(A, B), Transpose(HStack(C, D)));
    var R := Add(Mul(A, Transpose(C)), Mul(B, Transpose(D)));
    forall i, j | 0 <= i < |A| && 0 <= j < |C|
      ensures L[i][j] == R[i][j]
    {
      HStackDot(A, B, C, D, i, j);
    }
    Ext(L, R, |A|, |C|);
  }

  /** A sum over a + b terms splits into the first a terms and the last b. */
  lemma {:induction false} SplitSum(a: nat, b: nat, f: int -> real)
    ensures Sum(a + b, f) == Sum(a, f) + Sum(b, l => f(a + l))
  {
    if b > 0 {
      SplitSum(a, b - 1, f);
    }
  }

  lemma {:induction false} TransposeSub(A: Matrix, B: Matrix)
    requires Rect(A) && IsMatrix(B, |A|, Cols(A)) && |A| > 0
    ensures Transpose(Sub(A, B)) == Sub(Transpose(A), Transpose(B))
  {
    Ext(Transpose(Sub(A, B)), Sub(Transpose(A), Transpose(B)), Cols(A), |A|);
  }

  lemma {:induction false} TransposeAdd(A: Matrix, B: Matrix)
    requires Rect(A) && IsMatrix(B, |A|, Cols(A)) && |A| > 0
    ensures Transpose(Add(A, B)) == Add(Transpose(A), Transpose(B))
  {
    Ext(Transpose(Add(A, B)), Add(Transpose(A), Transpose(B)), Cols(A), |A|);
  }

  lemma {:induction false} TransposeZeros(r: nat, c: nat)
    requires r > 0
    ensures Transpose(Zeros(r, c)) == Zeros(c, r)
  {
    Ext(Transpose(Zeros(r, c)), Zeros(c, r), c, r);
  }

  /** The Frobenius inner product is symmetric. */
  lemma {:induction false} FrobeniusSymmetric(G: Matrix, H: Matrix, r: nat, c: nat)
    requires IsMatrix(G, r, c) && IsMatrix(H, r, c)
    ensures Frobenius(G, H) == Frobenius(H, G)
  {
    forall i | 0 <= i < r
      ensures RowProduct(G, H, i) == RowProduct(H, G, i)
    {
      SumExt(c, j => Entry(G, i, j) * Entry(H, i, j), j => Entry(H, i, j) * Entry(G, i, j));
    }
    SumExt(r, i => RowProduct(G, H, i), i => RowProduct(H, G, i));
  }

  /** The Frobenius inner product of a matrix with itself is never negative. */
  lemma {:induction false} FrobeniusNonNegative(G: Matrix)
    ensures Frobenius(G, G) >= 0.0
  {
    forall i | 0 <= i < |G|
      ensures RowProduct(G, G, i) >= 0.0
    {
      SumNonNegative(Cols(G), j => Entry(G, i, j) * Entry(G, i, j));
    }
    SumNonNegative(|G|, i => RowProduct(G, G, i));
  }

  /** A zero matrix is orthogonal to everything. */
  lemma {:induction false} FrobeniusZeros(r: nat, c: nat, H: Matrix)
    ensures Frobenius(Zeros(r, c), H) == 0.0
  {
    var Z := Zeros(r, c);
    forall i | 0 <= i < r
      ensures RowProduct(Z, H, i) == 0.0
    {
      SumZero(Cols(Z), j => Entry(Z, i, j) * Entry(H, i, j));
    }
    SumZero(r, i => RowProduct(Z, H, i));
  }

  /** Only the zero real squares to 0. */
  lemma {:induction false} SquareZero(x: real)
    requires x * x == 0.0
    ensures x == 0.0
  {
    if x != 0.0 {
      var s := x * x;
      SignedProduct(x, x, s);
      assert false;
    }
  }

  /** The product of two reals of the same strict sign is positive. */
  lemma {:induction false} SignedProduct(a: real, b: real, s: real)
    requires (a > 0.0 && b > 0.0) || (a < 0.0 && b < 0.0)
    requires s == a * b
    ensures s > 0.0
  {
  }

  /** A row whose products with itself sum to 0 is a row of zeros. */
  lemma {:induction false} RowProductDefinite(G: Matrix, i: int, c: nat)
    requires 0 <= i < |G| && |G[i]| == c && Cols(G) == c
    requires RowProduct(G, G, i) == 0.0
    ensures forall j :: 0 <= j < c ==> G[i][j] == 0.0
  {
    var f := j => Entry(G, i, j) * Entry(G, i, j);
    forall j | 0 <= j < c
      ensures f(j) >= 0.0
    {
    }
    SumNonNegativeZero(c, f);
    forall j | 0 <= j < c
      ensures G[i][j] == 0.0
    {
      assert f(j) == 0.0;
      SquareZero(Entry(G, i, j));
    }
  }

  /** The Frobenius inner product is definite: only the zero matrix has
      squared norm 0. */
  lemma {:induction false} FrobeniusDefinite(G: Matrix, r: nat, c: nat)
    requires IsMatrix(G, r, c)
    requires Frobenius(G, G) == 0.0
    ensures G == Zeros(r, c)
  {
    var rows := i => RowProduct(G, G, i);
    forall i | 0 <= i < r
      ensures rows(i) >= 0.0
    {
      SumNonNegative(Cols(G), j => Entry(G, i, j) * Entry(G, i, j));
    }
    SumNonNegativeZero(r, rows);
    forall i | 0 <= i < r
      ensures forall j :: 0 <= j < c ==> G[i][j] == 0.0
    {
      assert rows(i) == 0.0;
      RowProductDefinite(G, i, c);
    }
    Ext(G, Zeros(r, c), r, c);
  }

  /** The sum of the diagonal entries of a square matrix. */
  function Trace(P: Matrix): real
  {
    Sum(|P|, i => Entry(P, i, i))
  }

  /** `<G, H> == trace(G @ H.T)` */
  lemma {:induction false} FrobeniusTrace(G: Matrix, H: Matrix, r: nat, c: nat)
    requires IsMatrix(G, r, c) && IsMatrix(H, r, c) && r > 0 && c > 0
    ensures Frobenius(G, H) == Trace(Mul(G, Transpose(H)))
  {
    var HT := Transpose(H);
    var P := Mul(G, HT);
    forall i | 0 <= i < r
      ensures RowProduct(G, H, i) == Entry(P, i, i)
    {
      SumExt(c, j => Entry(G, i, j) * Entry(H, i, j), l => Entry(G, i, l) * Entry(HT, l, i));
    }
    SumExt(r, i => RowProduct(G, H, i), i => Entry(P, i, i));
  }

  /** The entrywise product of G and H, indexed by position. */
  function EntryProduct(G: Matrix, H: Matrix): (int, int) -> real
  {
    (i, j) => Entry(G, i, j) * Entry(H, i, j)
  }

  /** Row i of `EntryProduct` sums to the row product. */
  lemma {:induction false} RowProductAsRowSum(G: Matrix, H: Matrix, i: int)
    ensures RowProduct(G, H, i) == RowSum(EntryProduct(G, H), Cols(G), i)
  {
    var f := EntryProduct(G, H);
    SumExt(Cols(G), j => Entry(G, i, j) * Entry(H, i, j), j => f(i, j));
  }

  /** Row j of the transposes' entrywise product is column j of the original one. */
  lemma {:induction false} RowProductAsColSum(G: Matrix, H: Matrix, r: nat, c: nat, j: int)
    requires IsMatrix(G, r, c) && IsMatrix(H, r, c) && r > 0 && c > 0 && 0 <= j < c
    ensures RowProduct(Transpose(G), Transpose(H), j) == ColSum(EntryProduct(G, H), r, j)
  {
    var GT, HT, f := Transpose(G), Transpose(H), EntryProduct(G, H);
    SumExt(r, i => Entry(GT, j, i) * Entry(HT, j, i), i => f(i, j));
  }

  /** Transposing both arguments keeps the Frobenius inner product. */
  lemma {:induction false} FrobeniusTranspose(G: Matrix, H: Matrix, r: nat, c: nat)
    requires IsMatrix(G, r, c) && IsMatrix(H, r, c) && r > 0 && c > 0
    ensures Frobenius(Transpose(G), Transpose(H)) == Frobenius(G, H)
  {
    var GT, HT, f := Transpose(G), Transpose(H), EntryProduct(G, H);
    forall i | 0 <= i < r
      ensures RowProduct(G, H, i) == RowSum(f, c, i)
    {
      RowProductAsRowSum(G, H, i);
    }
    SumExt(r, i => RowProduct(G, H, i), i => RowSum(f, c, i));
    SumSwap(r, c, f);
    forall j | 0 <= j < c
      ensures RowProduct(GT, HT, j) == ColSum(f, r, j)
    {
      RowProductAsColSum(G, H, r, c, j);
    }
    SumExt(c, j => RowProduct(GT, HT, j), j => ColSum(f, r, j));
  }

  /** `<A @ B, C> == <A, C @ B.T>` */
  lemma {:induction false} FrobeniusMulRight(A: Matrix, B: Matrix, C: Matrix, n: nat, p: nat, q: nat)
    requires IsMatrix(A, n, p) && IsMatrix(B, p, q) && IsMatrix(C, n, q)
    requires n > 0 && p > 0 && q > 0
    ensures Frobenius(Mul(A, B), C) == Frobenius(A, Mul(C, Transpose(B)))
  {
    var BT, CT := Transpose(B), Transpose(C);
    var D := Mul(C, BT);
    FrobeniusTrace(Mul(A, B), C, n, q);
    MulAssoc(A, B, CT);
    TransposeMul(C, BT);
    TransposeTranspose(B);
    assert Transpose(D) == Mul(B, CT);
    FrobeniusTrace(A, D, n, p);
  }

  /** `<A @ B, C> == <B, A.T @ C>` */
  lemma {:induction false} FrobeniusMulLeft(A: Matrix, B: Matrix, C: Matrix, n: nat, p: nat, q: nat)
    requires IsMatrix(A, n, p) && IsMatrix(B, p, q) && IsMatrix(C, n, q)
    requires n > 0 && p > 0 && q > 0
    ensures Frobenius(Mul(A, B), C) == Frobenius(B, Mul(Transpose(A), C))
  {
    var AT, BT, CT := Transpose(A), Transpose(B), Transpose(C);
    var D := Mul(AT, C);
    FrobeniusTranspose(Mul(A, B), C, n, q);
    TransposeMul(A, B);
    FrobeniusMulRight(BT, AT, CT, q, p, n);
    TransposeTranspose(A);
    TransposeMul(AT, C);
    assert Transpose(D) == Mul(CT, A);
    FrobeniusTranspose(B, D, p, q);
  }

  /** The transpose of a skew-symmetric matrix is its negation. */
  lemma {:induction false} SkewTranspose(K: Matrix)
    requires IsMatrix(K, |K|, |K|) && IsSkewSymmetric(K)
    ensures Transpose(K) == Neg(K)
  {
    forall i, j | 0 <= i < |K| && 0 <= j < |K|
      ensures Transpose(K)[i][j] == Neg(K)[i][j]
    {
      assert Entry(K, j, i) == -Entry(K, i, j);
    }
    Ext(Transpose(K), Neg(K), |K|, |K|);
  }

  /** Symmetric and skew-symmetric matrices are orthogonal. */
  lemma {:induction false} FrobeniusSymSkew(S: Matrix, K: Matrix, p: nat)
    requires IsMatrix(S, p, p) && IsMatrix(K, p, p) && p > 0
    requires IsSymmetric(S) && IsSkewSymmetric(K)
    ensures Frobenius(S, K) == 0.0
  {
    FrobeniusTranspose(S, K, p, p);
    SymmetricTranspose(S);
    SkewTranspose(K);
    FrobeniusSymmetric(S, Neg(K), p, p);
    FrobeniusScale(-1.0, K, Neg(K), S, p, p);
    FrobeniusSymmetric(K, S, p, p);
  }

  /** The Frobenius inner product is additive in its first argument, for a difference. */
  lemma {:induction false} FrobeniusSub(A: Matrix, B: Matrix, K: Matrix, r: nat, c: nat)
    requires IsMatrix(A, r, c) && IsMatrix(B, r, c) && IsMatrix(K, r, c) && r > 0
    ensures Frobenius(Sub(A, B), K) == Frobenius(A, K) - Frobenius(B, K)
  {
    FrobeniusAdd(Sub(A, B), B, A, K, r, c);
  }

  /** w z == c (y z) for w == c y. */
  lemma {:induction false} ScaleTimes(c: real, y: real, z: real, w: real)
    requires w == c * y
    ensures w * z == c * (y * z)
  {
  }

  /** The Frobenius inner product is additive in its first argument: for
      S == G + H entrywise, <S, K> == <G, K> + <H, K>. */
  lemma {:induction false} FrobeniusAdd(G: Matrix, H: Matrix, S: Matrix, K: Matrix, r: nat, c: nat)
    requires IsMatrix(G, r, c) && IsMatrix(H, r, c) && IsMatrix(S, r, c) && IsMatrix(K, r, c)
    requires forall i, j :: 0 <= i < r && 0 <= j < c ==> S[i][j] == G[i][j] + H[i][j]
    ensures Frobenius(S, K) == Frobenius(G, K) + Frobenius(H, K)
  {
    forall i | 0 <= i < r
      ensures RowProduct(S, K, i) == RowProduct(G, K, i) + RowProduct(H, K, i)
    {
      var f := j => Entry(G, i, j) * Entry(K, i, j);
      var g := j => Entry(H, i, j) * Entry(K, i, j);
      var h := j => Entry(S, i, j) * Entry(K, i, j);
      forall j | 0 <= j < c
        ensures h(j) == f(j) + g(j)
      {
        Distrib(Entry(K, i, j), Entry(G, i, j), Entry(H, i, j), Entry(S, i, j));
      }
      SumAdd(c, f, g, h);
    }
    SumAdd(r, i => RowProduct(G, K, i), i => RowProduct(H, K, i), i => RowProduct(S, K, i));
  }

  /** The Frobenius inner product is homogeneous in its first argument: for
      S == a G entrywise, <S, K> == a <G, K>. */
  lemma {:induction false} FrobeniusScale(a: real, G: Matrix, S: Matrix, K: Matrix, r: nat, c: nat)
    requires IsMatrix(G, r, c) && IsMatrix(S, r, c)
    requires forall i, j :: 0 <= i < r && 0 <= j < c ==> S[i][j] == a * G[i][j]
    ensures Frobenius(S, K) == a * Frobenius(G, K)
  {
    RowsScale(a, G, S, K, r, c);
    FrobeniusOfScaledRows(a, G, S, K);
  }

  /** Rows scaled one by one scale the whole Frobenius product. */
  lemma {:induction false} FrobeniusOfScaledRows(a: real, G: Matrix, S: Matrix, K: Matrix)
    requires |S| == |G|
    requires forall i :: 0 <= i < |G| ==> RowProduct(S, K, i) == a * RowProduct(G, K, i)
    ensures Frobenius(S, K) == a * Frobenius(G, K)
  {
    SumScaleTo(|G|, a, i => RowProduct(G, K, i), i => RowProduct(S, K, i), Frobenius(G, K), Frobenius(S, K));
  }

  /** `FrobeniusScale`, row by row. */
  lemma {:induction false} RowsScale(a: real, G: Matrix, S: Matrix, K: Matrix, r: nat, c: nat)
    requires IsMatrix(G, r, c) && IsMatrix(S, r, c)
    requires forall i, j :: 0 <= i < r && 0 <= j < c ==> S[i][j] == a * G[i][j]
    ensures forall i :: 0 <= i < r ==> RowProduct(S, K, i) == a * RowProduct(G, K, i)
  {
    forall i | 0 <= i < r
      ensures RowProduct(S, K, i) == a * RowProduct(G, K, i)
    {
      RowScale(a, G, S, K, i, c);
    }
  }

  /** One row of `FrobeniusScale`: row i of S is a times row i of G. */
  lemma {:induction false} RowScale(a: real, G: Matrix, S: Matrix, K: Matrix, i: int, c: nat)
    requires 0 <= i < |G| && i < |S| && Cols(G) == c && Cols(S) == c
    requires forall j :: 0 <= j < c ==> Entry(S, i, j) == a * Entry(G, i, j)
    ensures RowProduct(S, K, i) == a * RowProduct(G, K, i)
  {
    var f := j => Entry(G, i, j) * Entry(K, i, j);
    var g := j => Entry(S, i, j) * Entry(K, i, j);
    forall j | 0 <= j < c
      ensures g(j) == a * f(j)
    {
      ScaleTimes(a, Entry(G, i, j), Entry(K, i, j), Entry(S, i, j));
    }
    SumScale(c, a, f, g);
  }

  // ---------------------------------------------------------------------
  // Symmetric and skew-symmetric parts

  /** `A - B == 0` exactly when A == B, and subtracting zero changes nothing. */
  lemma {:induction false} SubZeros(A: Matrix)
    requires Rect(A)
    ensures Sub(A, Zeros(|A|, Cols(A))) == A
  {
    Ext(Sub(A, Zeros(|A|, Cols(A))), A, |A|, Cols(A));
  }

  /** `multisym(A)` is symmetric. */
  lemma {:induction false} SymSymmetric(A: Matrix)
    requires IsMatrix(A, |A|, |A|)
    ensures IsSymmetric(Sym(A))
  {
  }

  /** `multisym` fixes symmetric matrices. */
  lemma {:induction false} SymOfSymmetric(A: Matrix)
    requires IsMatrix(A, |A|, |A|) && IsSymmetric(A)
    ensures Sym(A) == A
  {
    forall i, j | 0 <= i < |A| && 0 <= j < |A|
      ensures Sym(A)[i][j] == A[i][j]
    {
      assert Entry(A, i, j) == Entry(A, j, i);
    }
    Ext(Sym(A), A, |A|, |A|);
  }

  /** `multisym` annihilates skew-symmetric matrices. */
  lemma {:induction false} SymOfSkew(A: Matrix)
    requires IsMatrix(A, |A|, |A|) && IsSkewSymmetric(A)
    ensures Sym(A) == Zeros(|A|, |A|)
  {
    forall i, j | 0 <= i < |A| && 0 <= j < |A|
      ensures Sym(A)[i][j] == 0.0
    {
      assert Entry(A, i, j) == -Entry(A, j, i);
    }
    Ext(Sym(A), Zeros(|A|, |A|), |A|, |A|);
  }

  /** What is left of A after removing its symmetric part is skew-symmetric. */
  lemma {:induction false} SubSymSkew(A: Matrix)
    requires IsMatrix(A, |A|, |A|)
    ensures IsSkewSymmetric(Sub(A, Sym(A)))
  {
    var D := Sub(A, Sym(A));
    forall i, j | 0 <= i < |A| && 0 <= j < |A|
      ensures Entry(D, i, j) == -Entry(D, j, i)
    {
      assert D[i][j] == (A[i][j] - A[j][i]) / 2.0;
      assert D[j][i] == (A[j][i] - A[i][j]) / 2.0;
    }
  }

  /** A square matrix is skew-symmetric exactly when `A + A.T` vanishes. */
  lemma {:induction false} SkewIff(A: Matrix)
    requires IsMatrix(A, |A|, |A|) && |A| > 0
    ensures IsSkewSymmetric(A) <==> Add(A, Transpose(A)) == Zeros(|A|, |A|)
  {
    var S := Add(A, Transpose(A));
    if IsSkewSymmetric(A) {
      forall i, j | 0 <= i < |A| && 0 <= j < |A|
        ensures S[i][j] == 0.0
      {
        assert Entry(A, i, j) == -Entry(A, j, i);
      }
      Ext(S, Zeros(|A|, |A|), |A|, |A|);
    }
    if S == Zeros(|A|, |A|) {
      forall i, j | 0 <= i < |A| && 0 <= j < |A|
        ensures Entry(A, i, j) == -Entry(A, j, i)
      {
        assert S[i][j] == A[i][j] + A[j][i] == 0.0;
      }
    }
  }

  // ---------------------------------------------------------------------
  // Cancellation and scaling

  lemma {:induction false} AddZeros(A: Matrix)
    requires Rect(A)
    ensures Add(A, Zeros(|A|, Cols(A))) == A
  {
    Ext(Add(A, Zeros(|A|, Cols(A))), A, |A|, Cols(A));
  }

  lemma {:induction false} SubSelf(A: Matrix)
    requires Rect(A)
    ensures Sub(A, A) == Zeros(|A|, Cols(A))
  {
    Ext(Sub(A, A), Zeros(|A|, Cols(A)), |A|, Cols(A));
  }

  /** `(A + B) - A == B` */
  lemma {:induction false} AddSubCancel(A: Matrix, B: Matrix)
    requires Rect(A) && IsMatrix(B, |A|, Cols(A))
    ensures Sub(Add(A, B), A) == B
  {
    Ext(Sub(Add(A, B), A), B, |A|, Cols(A));
  }

  lemma {:induction false} ScaleZeros(c: real, r: nat, d: nat)
    ensures Scale(c, Zeros(r, d)) == Zeros(r, d)
  {
    Ext(Scale(c, Zeros(r, d)), Zeros(r, d), r, d);
  }

  lemma {:induction false} NegZeros(r: nat, d: nat)
    ensures Neg(Zeros(r, d)) == Zeros(r, d)
  {
    Ext(Neg(Zeros(r, d)), Zeros(r, d), r, d);
  }

  lemma {:induction false} DivColsZeros(r: nat, s: seq<real>)
    requires r > 0
    requires forall j :: 0 <= j < |s| ==> s[j] != 0.0
    ensures DivCols(Zeros(r, |s|), s) == Zeros(r, |s|)
  {
    Ext(DivCols(Zeros(r, |s|), s), Zeros(r, |s|), r, |s|);
  }

  /** x (c y) == c (x y) */
  lemma {:induction false} TimesScale(x: real, c: real, y: real, w: real)
    requires w == c * y
    ensures x * w == c * (x * y)
  {
  }

  lemma {:induction false} DotScaleRight(A: Matrix, c: real, B: Matrix, i: int, j: int)
    requires Rect(B) && 0 <= j < Cols(B)
    ensures Dot(A, i, Scale(c, B), j) == c * Dot(A, i, B, j)
  {
    var f, g := l => Entry(A, i, l) * Entry(B, l, j), l => Entry(A, i, l) * Entry(Scale(c, B), l, j);
    forall l | 0 <= l < |B|
      ensures g(l) == c * f(l)
    {
      TimesScale(Entry(A, i, l), c, Entry(B, l, j), Entry(Scale(c, B), l, j));
    }
    SumScale(|B|, c, f, g);
  }

  /** `A @ (c * B) == c * (A @ B)` */
  lemma {:induction false} MulScaleRight(A: Matrix, c: real, B: Matrix)
    requires Rect(A) && Rect(B) && Cols(A) == |B| && |B| > 0
    ensures Mul(A, Scale(c, B)) == Scale(c, Mul(A, B))
  {
    forall i, j | 0 <= i < |A| && 0 <= j < Cols(B)
      ensures Mul(A, Scale(c, B))[i][j] == Scale(c, Mul(A, B))[i][j]
    {
      DotScaleRight(A, c, B, i, j);
    }
    Ext(Mul(A, Scale(c, B)), Scale(c, Mul(A, B)), |A|, Cols(B));
  }

  /** `-B == -1 * B` */
  lemma {:induction false} NegIsScale(B: Matrix)
    requires Rect(B)
    ensures Neg(B) == Scale(-1.0, B)
  {
    Ext(Neg(B), Scale(-1.0, B), |B|, Cols(B));
  }

  /** `A @ (-B) == -(A @ B)` */
  lemma {:induction false} MulNegRight(A: Matrix, B: Matrix)
    requires Rect(A) && Rect(B) && Cols(A) == |B| && |B| > 0
    ensures Mul(A, Neg(B)) == Neg(Mul(A, B))
  {
    NegIsScale(B);
    NegIsScale(Mul(A, B));
    MulScaleRight(A, -1.0, B);
  }

  /** A symmetric square matrix is its own transpose. */
  lemma {:induction false} SymmetricTranspose(A: Matrix)
    requires IsMatrix(A, |A|, |A|) && IsSymmetric(A)
    ensures Transpose(A) == A
  {
    forall i, j | 0 <= i < |A| && 0 <= j < |A|
      ensures Transpose(A)[i][j] == A[i][j]
    {
      assert Entry(A, i, j) == Entry(A, j, i);
    }
    Ext(Transpose(A), A, |A|, |A|);
  }
}

# Riemannian manifolds of pymanopt, exact-algebra layer

This project models the algebraic core of five manifold classes of the
pymanopt optimisation library: `Stiefel`, `FixedRankEmbedded`, `Product`,
the Euclidean family (`Euclidean`, `Symmetric`, `SkewSymmetric`) and
`StrictlyPositiveVectors`. It also proves what these classes promise.
Numbers are Dafny `real` numbers, so arithmetic is exact, not floating
point. Matrices are `seq<seq<real>>` (module `Matrices`). Finite sums
live in module `Sums`. The errors a constructor raises are values of the
`Errors.Error` datatype, carrying the exact message text.

Almost every modelled method is a matrix expression, a comprehension, or a
constructor that validates its arguments, with no side effect. These are
written with datatypes, functions and lemmas. The one exception is
Product's `__setattr__`, which updates the object in place. It is the class
`Product.Attributes`, whose `Set` method changes an attribute map. The pure
function `Product.SetAttr` specifies the new map.

- **Stiefel.** A point is the list of its k blocks, each an n x p matrix.
  Matrix facts such as "X has orthonormal columns" (XᵀX = I) appear as
  explicit hypotheses.
- **FixedRank.** A point is a triple (U, s, Vt). A tangent vector is a
  triple (Up, M, Vp). An ambient matrix is dense or factored.
- **Product.** Generic over the factor type. Each delegating operation
  takes the factor's own operation as a function parameter.
  `Product.StiefelProductProj` instantiates the projection with Stiefel
  factors and proves what it gives.
- **Euclidean.** Arrays are flat, stored row-major. The blocks of a
  `(k, n, n)` stack are consecutive.
- **StrictlyPositiveVectors.** Points and vectors are n x k matrices.

The per-block helpers `multiprod`, `multitransp`, `multisym` and
`multiskew` are not part of this model. They are defined directly with
their standard meaning: block product, transpose, (A + Aᵀ)/2 and
(A − Aᵀ)/2. `pymanopt/manifolds/manifold.py`, the base class holding
`dim` and `point_layout`, is not part of this model either. Its two
fields are modelled as plain values.

## Model

| member | source | states |
|---|---|---|
| Stiefel.New | pymanopt/manifolds/stiefel.py:17-35 | succeeds exactly when n >= p >= 1 and k >= 1; otherwise fails with the ValueError of the first failing check, carrying its exact message |
| Stiefel.Shape | pymanopt/manifolds/stiefel.py:121-124 | a point is (n, p) when k = 1 and (k, n, p) otherwise; the trailing two axes are always n, p |
| Stiefel.Dim | pymanopt/manifolds/stiefel.py:34 | for valid parameters, dim = k (n p − p(p+1)/2) lies between 0 and k n p, the dimension of the ambient space |
| Stiefel.ProductOfConsecutiveIsEven | pymanopt/manifolds/stiefel.py:34 | p(p+1) is always even, so the halving in the dimension formula is exact |
| Stiefel.DimExact | pymanopt/manifolds/stiefel.py:34 | the integer dimension equals the real value k (n p − p(p+1)/2), and it is non-negative |
| Stiefel.TangentBlockIff | pymanopt/manifolds/stiefel.py:46-47 | the tangent condition "Xᵀ V is skew" is the same as Xᵀ V + Vᵀ X = 0 |
| Stiefel.Inner | pymanopt/manifolds/stiefel.py:41-44 | for k = 1 the full tensordot is the Frobenius product of the two n x p blocks, and a vector's product with itself is never negative |
| Stiefel.InnerSymmetric | pymanopt/manifolds/stiefel.py:41-44 | the Frobenius inner product is symmetric |
| Stiefel.InnerNonNegative | pymanopt/manifolds/stiefel.py:41-44 | the inner product is positive definite: inner(X, G, G) is non-negative, and 0 only for the zero vector |
| Stiefel.InnerAdd | pymanopt/manifolds/stiefel.py:41-44 | the inner product is additive in its first argument: inner(X, G + H, K) = inner(X, G, K) + inner(X, H, K) (in the second, too, by symmetry) |
| Stiefel.InnerScale | pymanopt/manifolds/stiefel.py:41-44 | the inner product is homogeneous in its first argument: inner(X, c G, K) = c inner(X, G, K), so with InnerAdd and InnerSymmetric it is bilinear |
| Stiefel.ProjBlockXt | pymanopt/manifolds/stiefel.py:47 | for orthonormal X, Xᵀ proj(X, U) = XᵀU − sym(XᵀU), the skew part of XᵀU |
| Stiefel.ProjBlockTangent | pymanopt/manifolds/stiefel.py:47 | for orthonormal X, one block of the projection is tangent |
| Stiefel.ProjBlockFixesTangent | pymanopt/manifolds/stiefel.py:47 | for orthonormal X, a tangent block is left unchanged by the projection |
| Stiefel.ProjBlockFixedIff | pymanopt/manifolds/stiefel.py:47 | a block is fixed by the projection if and only if it is tangent |
| Stiefel.Proj | pymanopt/manifolds/stiefel.py:46-47 | the projection has the shape of a point |
| Stiefel.ProjTangent | pymanopt/manifolds/stiefel.py:46-47 | for a point X, every block of proj(X, U) is tangent at X |
| Stiefel.ProjFixedIff | pymanopt/manifolds/stiefel.py:46-47 | proj(X, V) = V if and only if V is tangent at X |
| Stiefel.ProjIdempotent | pymanopt/manifolds/stiefel.py:46-47 | projecting twice equals projecting once |
| Stiefel.ProjBlockOrthogonal | pymanopt/manifolds/stiefel.py:47 | for one block and any V tangent at X, ⟨proj(X, U), V⟩ = ⟨U, V⟩: U − proj(X, U) is orthogonal to the tangent space |
| Stiefel.ProjOrthogonal | pymanopt/manifolds/stiefel.py:46-47 | proj is the orthogonal projection onto the tangent space: inner(X, proj(X, U), V) = inner(X, U, V) for every V tangent at X; with ProjTangent and ProjFixedIff this characterises it |
| Stiefel.HessianCorrection | pymanopt/manifolds/stiefel.py:51-53 | H sym(Xᵀ egrad) has the shape of a block |
| Stiefel.EHess2RHess | pymanopt/manifolds/stiefel.py:50-54 | the Riemannian Hessian has the shape of a point |
| Stiefel.EHess2RHessTangent | pymanopt/manifolds/stiefel.py:50-54 | for a point X, the converted Hessian is tangent at X |
| Stiefel.Transp | pymanopt/manifolds/stiefel.py:94-95 | the transported vector has the shape of a point |
| Stiefel.TranspTangent | pymanopt/manifolds/stiefel.py:94-95 | the transport is tangent at x2, leaves a vector already tangent at x2 unchanged, and does not depend on x1 |
| Stiefel.ZeroVec | pymanopt/manifolds/stiefel.py:121-124 | the zero vector has the shape of a point and every entry 0 |
| Stiefel.ZeroVecInner | pymanopt/manifolds/stiefel.py:41-44 | the zero vector has inner product 0 with every vector, itself included |
| Stiefel.ZeroVecTangent | pymanopt/manifolds/stiefel.py:121-124 | the zero vector is tangent at every point |
| Stiefel.SignFactor | pymanopt/manifolds/stiefel.py:62 | sign(sign(r) + 0.5) is +1 for r >= 0 and −1 for r < 0, never 0; its square is 1 and it makes r non-negative |
| Stiefel.Correction | pymanopt/manifolds/stiefel.py:62 | the correcting matrix is diagonal with the sign factors of R's diagonal |
| Stiefel.CorrectionInvolution | pymanopt/manifolds/stiefel.py:62 | the correcting matrix is its own inverse |
| Stiefel.CorrectedDiagonal | pymanopt/manifolds/stiefel.py:62 | after correction, R's diagonal is non-negative |
| Stiefel.CorrectionKeepsFactorization | pymanopt/manifolds/stiefel.py:62 | (Q D)(D R) = Q R, and Q D keeps orthonormal columns, so the corrected Q is still a Stiefel point with the same QR product |
| FixedRank.New | pymanopt/manifolds/fixed_rank.py:80-89 | succeeds exactly when 1 <= k <= m and k <= n; otherwise fails with the error of the inner Stiefel(m, k) or Stiefel(n, k) check, in that order |
| FixedRank.Dim | pymanopt/manifolds/fixed_rank.py:88 | dim = (m + n − k) k equals m n − (m − k)(n − k), the ambient dimension less that of the normal space |
| FixedRank.PointLayout | pymanopt/manifolds/fixed_rank.py:89 | a point is a triple of arrays: the layout is 3 |
| FixedRank.DimBounds | pymanopt/manifolds/fixed_rank.py:88 | k² <= (m + n − k) k <= m n |
| FixedRank.TypicalDist | pymanopt/manifolds/fixed_rank.py:91-93 | the typical distance is the dimension itself, with no square root, so it lies between k² and m n |
| FixedRank.Expand | pymanopt/manifolds/fixed_rank.py:113-115 | a dense or factored ambient value stands for an m x n matrix |
| FixedRank.ApplyAmbient | pymanopt/manifolds/fixed_rank.py:98-102 | Z W has m rows and the columns of W |
| FixedRank.ApplyAmbientExpand | pymanopt/manifolds/fixed_rank.py:98-102 | Z W equals the dense product, for a factored Z as well |
| FixedRank.ApplyAmbientTransposeAsWritten | pymanopt/manifolds/fixed_rank.py:104-108 | the code as written, Z2 Z1 Z0ᵀ W, has n rows |
| FixedRank.AsWrittenAgreesWhenSymmetric | pymanopt/manifolds/fixed_rank.py:104-108 | for a symmetric middle factor, the code as written computes Zᵀ W |
| FixedRank.AsWrittenTransposeCounterexample | pymanopt/manifolds/fixed_rank.py:104-108 | a concrete factored Z on which the code as written differs from Zᵀ W |
| FixedRank.ApplyAmbientTranspose | pymanopt/manifolds/fixed_rank.py:104-108 | the corrected product Z2 Z1ᵀ Z0ᵀ W has n rows |
| FixedRank.ApplyAmbientTransposeExpand | pymanopt/manifolds/fixed_rank.py:104-108 | the corrected product equals Zᵀ W for the dense Z |
| FixedRank.ComplementOrthogonal | pymanopt/manifolds/fixed_rank.py:124 | with orthonormal Q, Qᵀ (D − Q Qᵀ D) = 0 |
| FixedRank.ComplementFixes | pymanopt/manifolds/fixed_rank.py:207-208 | if Qᵀ D = 0, then D − Q Qᵀ D = D |
| FixedRank.Proj | pymanopt/manifolds/fixed_rank.py:110-128 | the corrected projection, built on the corrected transpose product of the first finding, has the shapes (m, k), (k, k), (n, k) |
| FixedRank.ProjAsWritten | pymanopt/manifolds/fixed_rank.py:120-128 | proj as written, with the transpose product of lines 104-108 as written, has the triple shapes and the same Up and M as the corrected projection |
| FixedRank.ProjAsWrittenAgrees | pymanopt/manifolds/fixed_rank.py:120-128 | for a dense Z, or a factored Z with a symmetric middle factor, proj as written equals the corrected projection |
| FixedRank.ProjAsWrittenCounterexample | pymanopt/manifolds/fixed_rank.py:120-128 | at the point ([[1], [0]], [1], [[0, 1]]) with Z = (I, [[0, 1], [0, 0]], I), proj as written gives Vp = [[0], [−1]], which is not tangent; the corrected projection gives Vp = 0, which is |
| FixedRank.ProjMTranspose | pymanopt/manifolds/fixed_rank.py:125-126 | Mᵀ = Vt Zᵀ U |
| FixedRank.ProjTangent | pymanopt/manifolds/fixed_rank.py:120-128 | at an orthonormal point, Uᵀ Up = 0 and Vt Vp = 0, and M = Uᵀ Z Vtᵀ |
| FixedRank.ProjFactored | pymanopt/manifolds/fixed_rank.py:110-128 | the corrected proj of a factored Z gives the same triple as the corrected proj of its dense product (proj as written does not: see ProjAsWrittenCounterexample) |
| FixedRank.ToAmbient | pymanopt/manifolds/fixed_rank.py:268-272 | U M Vt + Up Vt + U Vpᵀ is m x n |
| FixedRank.Tangent2Ambient | pymanopt/manifolds/fixed_rank.py:223-242 | returns an m x 2k factor, S = I₂ₖ and an n x 2k factor |
| FixedRank.Tangent2AmbientExpand | pymanopt/manifolds/fixed_rank.py:239-242 | the factored representation multiplies out to to_ambient |
| FixedRank.ToAmbientTimesV | pymanopt/manifolds/fixed_rank.py:268-272 | at an orthonormal point, to_ambient times Vtᵀ = U M + Up for a tangent vector |
| FixedRank.FirstTermTransposeTimesU | pymanopt/manifolds/fixed_rank.py:269 | (U M Vt)ᵀ U = Vtᵀ Mᵀ |
| FixedRank.SecondTermTransposeTimesU | pymanopt/manifolds/fixed_rank.py:270 | (Up Vt)ᵀ U = 0 for a tangent vector |
| FixedRank.ThirdTermTransposeTimesU | pymanopt/manifolds/fixed_rank.py:271 | (U Vpᵀ)ᵀ U = Vp |
| FixedRank.ToAmbientTransposeTimesU | pymanopt/manifolds/fixed_rank.py:268-272 | to_ambient transposed times U = Vtᵀ Mᵀ + Vp for a tangent vector |
| FixedRank.ProjToAmbient | pymanopt/manifolds/fixed_rank.py:110-128 | projecting the ambient form of a tangent vector gives that vector back |
| FixedRank.ProjFixedIff | pymanopt/manifolds/fixed_rank.py:110-128 | the projection recovers a triple from its ambient form if and only if the triple is tangent |
| FixedRank.ProjIdempotent | pymanopt/manifolds/fixed_rank.py:110-128 | projecting the ambient form of a projection gives the same projection |
| FixedRank.ProjOrthogonal | pymanopt/manifolds/fixed_rank.py:110-128 | proj is the orthogonal projection onto the tangent space: for every tangent triple G, inner(X, proj(X, Z), G) equals the Frobenius product of Z with the ambient matrix of G |
| FixedRank.InnerAmbient | pymanopt/manifolds/fixed_rank.py:95-96 | at a point, inner on tangent triples equals the Frobenius product of their ambient matrices (lines 268-272): the metric is the one induced by the embedding |
| FixedRank.Transp | pymanopt/manifolds/fixed_rank.py:250-251 | the transported vector has tangent-triple shapes |
| FixedRank.TranspTangent | pymanopt/manifolds/fixed_rank.py:250-251 | the transport is tangent at the target point |
| FixedRank.TranspDense | pymanopt/manifolds/fixed_rank.py:250-251 | the transport through the factored ambient form equals projection of the dense ambient matrix |
| FixedRank.TranspSelf | pymanopt/manifolds/fixed_rank.py:250-251 | transport from a point to itself leaves a tangent vector unchanged |
| FixedRank.TranspAsWritten | pymanopt/manifolds/fixed_rank.py:104-108 | on the factored value that transp passes, the code as written agrees with the corrected transpose, since its middle factor is the identity, so proj as written applied to that value is the transport |
| FixedRank.Weights | pymanopt/manifolds/fixed_rank.py:150-151 | f has ones on the diagonal, and f_ij (s_j² − s_i²) = 1 off it |
| FixedRank.EGrad2RGrad | pymanopt/manifolds/fixed_rank.py:142-159 | the converted gradient has tangent-triple shapes (EGrad2RGradChainRule and EGrad2RGradIsGradient show it is the Riemannian gradient) |
| FixedRank.Middle | pymanopt/manifolds/fixed_rank.py:153-157 | the middle factor is k x k |
| FixedRank.MiddleDiagonal | pymanopt/manifolds/fixed_rank.py:153-157 | the diagonal of M is dS, because the antisymmetric terms vanish there |
| FixedRank.MiddleOffDiagonal | pymanopt/manifolds/fixed_rank.py:153-157 | off the diagonal, M_ij = f_ij (s_j (A_ij − A_ji) + s_i (B_ij − B_ji)) |
| FixedRank.MiddleSolves | pymanopt/manifolds/fixed_rank.py:151-157 | given the weight equation, M_ij (s_j² − s_i²) = s_j (A_ij − A_ji) + s_i (B_ij − B_ji) |
| FixedRank.WeightsSolve | pymanopt/manifolds/fixed_rank.py:150-157 | with the weights the code builds, the middle factor solves that equation |
| FixedRank.EGrad2RGradTangent | pymanopt/manifolds/fixed_rank.py:142-159 | at an orthonormal point with non-zero s, Uᵀ Up = 0 and Vt Vp = 0 |
| FixedRank.EGrad2RGradDiagonal | pymanopt/manifolds/fixed_rank.py:150-157 | the diagonal of the converted M is the gradient with respect to s |
| FixedRank.FactorGradient | pymanopt/manifolds/fixed_rank.py:133-136 | the triple (df/dU, df/dS, df/dV) that a cost written in terms of U diag(s) Vt has, by the chain rule, when E is its ambient gradient: dU = E Vtᵀ diag(s), dS = diag(Uᵀ E Vtᵀ), dVt = diag(s) Uᵀ E; it has the shapes egrad2rgrad expects |
| FixedRank.FactorGradientProducts | pymanopt/manifolds/fixed_rank.py:142-148 | on that triple, utdu = P diag(s) and vtdv = Pᵀ diag(s), where P = Uᵀ E Vtᵀ is the middle factor of proj(X, E) |
| FixedRank.MiddleRecovers | pymanopt/manifolds/fixed_rank.py:150-157 | with those utdu and vtdv and with dS = diag(P), the weights f make M equal to P exactly, off the diagonal as well as on it |
| FixedRank.EGrad2RGradChainRule | pymanopt/manifolds/fixed_rank.py:130-159 | egrad2rgrad maps the factor gradient of any ambient gradient E to proj(X, E), in all three components |
| FixedRank.EGrad2RGradIsGradient | pymanopt/manifolds/fixed_rank.py:130-159 | the result is the Riemannian gradient: for every tangent H, inner(X, egrad2rgrad(X, egrad), H) equals the Frobenius product of E with the matrix H stands for |
| FixedRank.Tangent | pymanopt/manifolds/fixed_rank.py:199-210 | `_tangent` keeps M and the triple shapes |
| FixedRank.TangentRegroup | pymanopt/manifolds/fixed_rank.py:207-208 | (U Uᵀ) Up equals U (Uᵀ Up), so the cleanup is the complement projection |
| FixedRank.TangentIsTangent | pymanopt/manifolds/fixed_rank.py:199-210 | the cleaned triple is tangent |
| FixedRank.TangentFixesTangent | pymanopt/manifolds/fixed_rank.py:199-210 | a tangent triple is left unchanged |
| FixedRank.TangentFixedIff | pymanopt/manifolds/fixed_rank.py:199-210 | the cleanup fixes a triple if and only if it is tangent, and it is idempotent |
| FixedRank.Inner | pymanopt/manifolds/fixed_rank.py:95-96 | a vector's inner product with itself, the sum of three squared Frobenius norms, is never negative |
| FixedRank.InnerSymmetric | pymanopt/manifolds/fixed_rank.py:95-96 | the inner product is symmetric |
| FixedRank.InnerNonNegative | pymanopt/manifolds/fixed_rank.py:95-96 | the inner product is positive definite: the squared norm is non-negative, and 0 only for the zero triple |
| FixedRank.InnerAddVec | pymanopt/manifolds/fixed_rank.py:95-96 | the inner product is additive in its first argument: inner(X, G + H, K) = inner(X, G, K) + inner(X, H, K) |
| FixedRank.InnerScaleVec | pymanopt/manifolds/fixed_rank.py:95-96 | the inner product is homogeneous in its first argument: inner(X, c G, K) = c inner(X, G, K), so with InnerAddVec and InnerSymmetric it is bilinear |
| FixedRank.ZeroVec | pymanopt/manifolds/fixed_rank.py:253-258 | zeros of shapes (m, k), (k, k), (n, k) |
| FixedRank.ZeroVecProperties | pymanopt/manifolds/fixed_rank.py:253-258 | the zero vector is tangent, is orthogonal to everything, and its ambient form is the zero matrix |
| FixedRank.AddVec | pymanopt/manifolds/fixed_rank.py:274-275 | componentwise sum keeps the triple shapes |
| FixedRank.SubVec | pymanopt/manifolds/fixed_rank.py:277-278 | componentwise difference keeps the triple shapes |
| FixedRank.ScaleVec | pymanopt/manifolds/fixed_rank.py:280-283 | scaling keeps the triple shapes |
| FixedRank.NegVec | pymanopt/manifolds/fixed_rank.py:288-289 | negation keeps the triple shapes |
| FixedRank.AddVecTangent | pymanopt/manifolds/fixed_rank.py:274-275 | a sum of tangent vectors is tangent |
| FixedRank.SubVecTangent | pymanopt/manifolds/fixed_rank.py:277-278 | a difference of tangent vectors is tangent |
| FixedRank.ScaleVecTangent | pymanopt/manifolds/fixed_rank.py:280-283 | a multiple of a tangent vector is tangent |
| FixedRank.NegVecTangent | pymanopt/manifolds/fixed_rank.py:288-289 | the negation of a tangent vector is tangent |
| FixedRank.AddVecZero | pymanopt/manifolds/fixed_rank.py:274-278 | G − G is the zero vector, and G + 0 = G |
| Product.CheckFactors | pymanopt/manifolds/product.py:39-44 | the check passes if and only if every candidate is a non-product manifold; otherwise the first offender's error is raised |
| Product.New | pymanopt/manifolds/product.py:36-45 | fails on an empty list with "At least one manifold required"; otherwise succeeds exactly when every factor is accepted, keeping them in order, and a rejected list fails with the error of its first rejected candidate |
| Product.NewFirstRejectionWins | pymanopt/manifolds/product.py:39-44 | the factors are checked in order, and the first rejected one decides the message |
| Product.Dim | pymanopt/manifolds/product.py:48 | a product of one factor has that factor's dimension, and the dimension is non-negative when every factor's is |
| Product.SumIntsAppend | pymanopt/manifolds/product.py:48 | the sum of dimensions is additive over concatenation |
| Product.SumIntsNonNegative | pymanopt/manifolds/product.py:48 | a sum of non-negative dimensions is non-negative |
| Product.Dims | pymanopt/manifolds/product.py:48 | the k-th listed dimension is the k-th factor's |
| Product.DimSplit | pymanopt/manifolds/product.py:48 | the product's dimension is additive over its factor list, and non-negative when every factor's is |
| Product.PointLayout | pymanopt/manifolds/product.py:49 | the layout is the factors' layouts, in order |
| Product.Inner | pymanopt/manifolds/product.py:63-65 | a product of one factor has that factor's inner product |
| Product.InnerUpToSymmetric | pymanopt/manifolds/product.py:63-65 | a partial sum of symmetric factor inner products is symmetric |
| Product.InnerSymmetric | pymanopt/manifolds/product.py:63-65 | the product inner product is symmetric when every factor's is |
| Product.InnerUpToNonNegative | pymanopt/manifolds/product.py:63-65 | a partial sum of non-negative squared norms is non-negative |
| Product.InnerNonNegative | pymanopt/manifolds/product.py:63-65 | the product squared norm is non-negative when every factor's is, and it is 0 only when every factor's squared norm is 0, so the product metric is definite when every factor's is |
| Product.InnerUpToZero | pymanopt/manifolds/product.py:63-65 | a partial sum whose terms are all 0 is 0 |
| Product.InnerUpToZeroTerms | pymanopt/manifolds/product.py:63-65 | a partial sum of non-negative factor terms is 0 only when each of those terms is 0 |
| Product.InnerUpToAdd | pymanopt/manifolds/product.py:63-65 | a partial sum is additive in the first vector when every factor's inner product is |
| Product.InnerAdd | pymanopt/manifolds/product.py:15-18 | with the sum of lines 15-18 (which succeeds for equal lengths), inner(X, G + H, K) = inner(X, G, K) + inner(X, H, K) when every factor's inner product is additive |
| Product.InnerUpToScale | pymanopt/manifolds/product.py:63-65 | a partial sum is homogeneous in the first vector when every factor's inner product is |
| Product.InnerScale | pymanopt/manifolds/product.py:25-28 | with the scaling of lines 25-28, inner(X, c G, K) = c inner(X, G, K) when every factor's inner product is homogeneous, so with InnerAdd and InnerSymmetric the product metric is bilinear |
| Product.AddVec | pymanopt/manifolds/product.py:15-18 | the sum fails with AssertionError when the lengths differ, and is otherwise componentwise |
| Product.SubVec | pymanopt/manifolds/product.py:20-23 | the difference fails with AssertionError when the lengths differ, and is otherwise componentwise |
| Product.ScaleVec | pymanopt/manifolds/product.py:25-28 | scaling is componentwise and keeps the length |
| Product.NegVec | pymanopt/manifolds/product.py:33-34 | negation is componentwise and keeps the length |
| Product.SubAfterAdd | pymanopt/manifolds/product.py:15-23 | when the factors' subtraction undoes their addition, (G + H) − H = G |
| Product.Proj | pymanopt/manifolds/product.py:74-76 | the k-th component is factor k's projection of the k-th components |
| Product.EGrad2RGrad | pymanopt/manifolds/product.py:78-81 | the k-th component is factor k's conversion |
| Product.EHess2RHess | pymanopt/manifolds/product.py:83-86 | the k-th component is factor k's Hessian conversion |
| Product.Exp | pymanopt/manifolds/product.py:88-89 | the k-th point is factor k's exponential |
| Product.Retr | pymanopt/manifolds/product.py:91-92 | the k-th point is factor k's retraction |
| Product.Log | pymanopt/manifolds/product.py:94-96 | the k-th component is factor k's logarithm |
| Product.Transp | pymanopt/manifolds/product.py:107-110 | the k-th component is factor k's transport |
| Product.PairMean | pymanopt/manifolds/product.py:112-114 | the k-th point is factor k's pair mean |
| Product.ZeroVec | pymanopt/manifolds/product.py:116-118 | the k-th component is factor k's zero vector |
| Product.ProjIdempotent | pymanopt/manifolds/product.py:74-76 | the product projection is idempotent when every factor's is |
| Product.ZeroVecInner | pymanopt/manifolds/product.py:116-118 | under the product inner product of lines 63-65, the zero vector is orthogonal to everything when each factor's is |
| Product.SetAttr | pymanopt/manifolds/product.py:52-56 | rebinding an existing `manifolds` attribute raises AttributeError; every other assignment stores the value and leaves the other attributes alone |
| Product.ManifoldsSetOnce | pymanopt/manifolds/product.py:52-56 | `manifolds` can be set once and not again, while other attributes can be set repeatedly |
| Product.Attributes.Set | pymanopt/manifolds/product.py:52-56 | updates the object's attributes in place: rebinding `manifolds` raises AttributeError and leaves them unchanged, and otherwise the new attributes are those `SetAttr` gives |
| Product.StiefelProj | pymanopt/manifolds/stiefel.py:46-47 | the Stiefel factor operation used by the product has a point's shape |
| Product.StiefelProductProj | pymanopt/manifolds/product.py:74-76 | on Stiefel factors, the k-th component is the Stiefel projection |
| Product.StiefelProductProjTangent | pymanopt/manifolds/product.py:74-76 | on Stiefel factors, every component of the product projection is tangent, and the product projection is idempotent |
| Euclidean.SizeOfStack | pymanopt/manifolds/euclidean.py:93-97 | a square stack holds k n² entries |
| Euclidean.NewEuclidean | pymanopt/manifolds/euclidean.py:68-80 | fails with TypeError "Need shape parameters" exactly when no shape is given; otherwise dim is the product of the shape |
| Euclidean.NewSymmetric | pymanopt/manifolds/euclidean.py:92-102 | shape (n, n) for k = 1, (k, n, n) for k > 1, and a ValueError naming k otherwise |
| Euclidean.NewSkewSymmetric | pymanopt/manifolds/euclidean.py:125-135 | the same shapes, and a ValueError for k < 1 |
| Euclidean.NewSymmetricMessage | pymanopt/manifolds/euclidean.py:99-100 | the message prints the rejected k, negative values included |
| Euclidean.HalfExact | pymanopt/manifolds/euclidean.py:101 | halving k m with m even is exact, in integers and in reals |
| Euclidean.SymmetricDim | pymanopt/manifolds/euclidean.py:101 | dim = k n(n+1)/2 exactly, between 0 and the number of entries |
| Euclidean.SkewSymmetricDim | pymanopt/manifolds/euclidean.py:134 | dim = k n(n−1)/2 exactly, between 0 and the number of entries |
| Euclidean.SkewHalf | pymanopt/manifolds/euclidean.py:134 | the skew dimension's halving is exact and bounded by k n² |
| Euclidean.Swap | pymanopt/manifolds/euclidean.py:104-105 | the transposing index map stays inside the stack |
| Euclidean.SwapAt | pymanopt/manifolds/euclidean.py:104-105 | the index map sends entry (b, i, j) to (b, j, i) |
| Euclidean.SwapInvolution | pymanopt/manifolds/euclidean.py:104-105 | transposing twice is the identity |
| Euclidean.SymStack | pymanopt/manifolds/euclidean.py:104-105 | multisym of a stack is symmetric in every block |
| Euclidean.SkewStack | pymanopt/manifolds/euclidean.py:137-138 | multiskew of a stack is skew-symmetric in every block |
| Euclidean.SymStackFixedIff | pymanopt/manifolds/euclidean.py:104-105 | multisym fixes a stack if and only if it is symmetric |
| Euclidean.SkewStackFixedIff | pymanopt/manifolds/euclidean.py:137-138 | multiskew fixes a stack if and only if it is skew-symmetric |
| Euclidean.SymStackIsSym | pymanopt/manifolds/euclidean.py:104-105 | on one block, the flat multisym is the matrix (A + Aᵀ)/2 |
| Euclidean.SymStackPairing | pymanopt/manifolds/euclidean.py:104-105 | multisym is the orthogonal projection onto symmetric stacks: for every symmetric V, ⟨multisym(U), V⟩ = ⟨U, V⟩ |
| Euclidean.SkewStackPairing | pymanopt/manifolds/euclidean.py:137-138 | multiskew is the orthogonal projection onto skew-symmetric stacks: for every skew-symmetric V, ⟨multiskew(U), V⟩ = ⟨U, V⟩ |
| Euclidean.Inner | pymanopt/manifolds/euclidean.py:20-21 | a vector's inner product with itself, the sum of its squared entries, is never negative |
| Euclidean.InnerSymmetric | pymanopt/manifolds/euclidean.py:20-21 | the inner product is symmetric |
| Euclidean.InnerNonNegative | pymanopt/manifolds/euclidean.py:20-21 | the inner product is positive definite: the squared norm is non-negative, and 0 only when every entry is 0 |
| Euclidean.InnerAdd | pymanopt/manifolds/euclidean.py:20-21 | the inner product is additive in its first argument |
| Euclidean.InnerScale | pymanopt/manifolds/euclidean.py:20-21 | the inner product is homogeneous in its first argument, so with InnerAdd and InnerSymmetric it is bilinear |
| Euclidean.Proj | pymanopt/manifolds/euclidean.py:29-30 | the projection, with the multisym and multiskew overrides of lines 104-105 and 137-138, is tangent for each kind, and the identity for the plain Euclidean space |
| Euclidean.ProjFixedIff | pymanopt/manifolds/euclidean.py:29-30 | the projection of every kind (overrides at lines 104-105 and 137-138) fixes U if and only if U is tangent |
| Euclidean.ProjIdempotent | pymanopt/manifolds/euclidean.py:104-105 | for every kind (skew override at lines 137-138), projecting twice equals projecting once |
| Euclidean.ProjOrthogonal | pymanopt/manifolds/euclidean.py:29-30 | for every kind (overrides at lines 104-105 and 137-138), proj is the orthogonal projection: inner(proj(X, U), V) = inner(U, V) for every tangent V |
| Euclidean.EHess2RHess | pymanopt/manifolds/euclidean.py:32-33 | with the overrides of lines 107-108 and 140-141, the converted Hessian is the projection of ehess: tangent, and equal to ehess when ehess is tangent |
| Euclidean.Exp | pymanopt/manifolds/euclidean.py:35-38 | exp(X, U) − X = U entrywise; retr is the same function |
| Euclidean.Log | pymanopt/manifolds/euclidean.py:40-41 | X + log(X, Y) = Y entrywise |
| Euclidean.LogExp | pymanopt/manifolds/euclidean.py:35-41 | log(X, exp(X, U)) = U |
| Euclidean.ExpLog | pymanopt/manifolds/euclidean.py:35-41 | exp(X, log(X, Y)) = Y |
| Euclidean.Transp | pymanopt/manifolds/euclidean.py:50-51 | the vector is returned unchanged, and a tangent vector stays tangent |
| Euclidean.PairMean | pymanopt/manifolds/euclidean.py:53-54 | the mean is halfway: log(X, Z) = log(Z, Y) |
| Euclidean.PairMeanSymmetric | pymanopt/manifolds/euclidean.py:53-54 | pairmean is symmetric in X and Y, and pairmean(X, X) = X |
| Euclidean.ZeroVec | pymanopt/manifolds/euclidean.py:56-57 | zeros of the manifold's shape |
| Euclidean.ZeroVecProperties | pymanopt/manifolds/euclidean.py:56-57 | the zero vector is tangent, is orthogonal to everything, and exp does not move along it |
| StrictlyPositiveVectors.Dim | pymanopt/manifolds/strictly_positive_vectors.py:24 | dim = n k |
| StrictlyPositiveVectors.Inner | pymanopt/manifolds/strictly_positive_vectors.py:31-33 | the result is a 1 x k row of column sums |
| StrictlyPositiveVectors.InnerSymmetric | pymanopt/manifolds/strictly_positive_vectors.py:31-33 | inner(x, u, v) = inner(x, v, u) |
| StrictlyPositiveVectors.InnerNonNegative | pymanopt/manifolds/strictly_positive_vectors.py:31-33 | every column of inner(x, u, u) is non-negative; at a point, a column is 0 only where that column of u is zero |
| StrictlyPositiveVectors.InnerAdd | pymanopt/manifolds/strictly_positive_vectors.py:31-33 | column by column, the inner product is additive in its first vector |
| StrictlyPositiveVectors.InnerScale | pymanopt/manifolds/strictly_positive_vectors.py:31-33 | column by column, the inner product is homogeneous in its first vector, so with InnerAdd and InnerSymmetric it is bilinear |
| StrictlyPositiveVectors.Proj | pymanopt/manifolds/strictly_positive_vectors.py:35-36 | the projection is the identity |
| StrictlyPositiveVectors.EGrad2RGrad | pymanopt/manifolds/strictly_positive_vectors.py:54-55 | u x² has the shape of a vector |
| StrictlyPositiveVectors.CancelWeight | pymanopt/manifolds/strictly_positive_vectors.py:54-55 | the weight 1/x² of the inner product (lines 31-33) cancels the scaling by x² |
| StrictlyPositiveVectors.EGrad2RGradPairing | pymanopt/manifolds/strictly_positive_vectors.py:54-55 | measured with the metric at x (lines 31-33), the converted gradient pairs with v as the Euclidean gradient does entrywise, which makes it the Riemannian gradient |
| StrictlyPositiveVectors.Retr | pymanopt/manifolds/strictly_positive_vectors.py:60-61 | retr(x, u) − x = u entrywise |
| StrictlyPositiveVectors.ZeroVecAsWritten | pymanopt/manifolds/strictly_positive_vectors.py:48-49 | the code as written always raises TypeError |
| StrictlyPositiveVectors.ZeroVec | pymanopt/manifolds/strictly_positive_vectors.py:48-49 | the corrected zero vector is an n x k matrix of zeros |
| StrictlyPositiveVectors.ZeroVecProperties | pymanopt/manifolds/strictly_positive_vectors.py:48-49 | the written zerovec never returns; the corrected one is not moved by retr and is orthogonal to every v |

## Left out

- The QR retractions of Stiefel and FixedRankEmbedded, Stiefel's matrix-exponential `exp`, and the SVD inside FixedRankEmbedded's `retr`. These are numerical library routines. Only the QR sign correction is modelled (`Stiefel.SignFactor`, `Stiefel.Correction`), taking the QR factors as inputs.
- The machine-epsilon shift `np.spacing(1)` in FixedRankEmbedded's `retr`: floating point only.
- Every `rand` and `randvec`, and Product's `randvec` scaling: random sampling.
- `norm` and `dist`, and the `typicaldist` of every class except FixedRankEmbedded: they take square roots. The squared norm `inner(X, G, G)` is modelled instead. FixedRankEmbedded's `typicaldist` returns the dimension and is modelled (`FixedRank.TypicalDist`).
- The `exp`, `log` and `dist` of StrictlyPositiveVectors: transcendental functions.
- The `__div__` operators of both tangent-vector classes. Python 3 never calls them for `/`.
- The `name` strings built by the constructors. They are descriptive text with no behaviour.
- `FixedRank.ApplyAmbientTransposeAsWritten`: requires Z1 square; the numpy shape error otherwise is not modelled.
- `FixedRank.ProjAsWritten`: requires Z1 square for the same reason; the numpy shape error otherwise is not modelled.
- `FixedRank.EGrad2RGrad`: requires non-zero singular values with distinct squares (`Separated`), as the code's divisions by s and by s_j² − s_i² do. The model does not describe the infinities numpy would produce otherwise.
- `Euclidean.NewSymmetric`: n is a natural number. A negative or non-integer n, which Python accepts at construction, is not modelled.
- `Euclidean.NewEuclidean`: the shape entries are natural numbers. A negative or non-integer entry, which Python accepts at construction (dim is their product), is not modelled.
- `Euclidean.NewSkewSymmetric`: n is a natural number. A negative or non-integer n, which Python accepts at construction, is not modelled.
- `StrictlyPositiveVectors.Manifold`: n and k are natural numbers. A negative or non-integer n or k, which the Python constructor accepts without a check (dim is `int(k * n)`), is not modelled.
- `StrictlyPositiveVectors.InnerNonNegative`: an entry of x equal to 0 contributes 0 instead of the infinity numpy would produce, and definiteness is stated at points only. Points have strictly positive entries, so this case does not arise on the manifold.
- `Product.Proj` and the other delegating operations take the factor operation as a parameter. They do not dispatch on the class of each factor. `Product.StiefelProductProj` shows one instantiation.
- `Product.New`: the run-time type test `isinstance` is modelled by the `Candidate` datatype, which says whether each argument is a manifold, a product or something else. The message names that type as a string.

## Findings

| source | as written | input that shows it | evidently intended | confidence | as-written member | corrected member |
|---|---|---|---|---|---|---|
| pymanopt/manifolds/fixed_rank.py:104-108 | for a factored Z = (Z0, Z1, Z2) it returns Z2 Z1 Z0ᵀ W, which is Zᵀ W only when Z1 is symmetric | m = n = 2, k = 1, Z0 = Z2 = W = I, Z1 = [[0, 1], [0, 0]]: entry (0, 1) is 1 where Zᵀ W has 0 | Z2 Z1ᵀ Z0ᵀ W, the transpose of Z0 Z1 Z2ᵀ applied to W | not executed | FixedRank.AsWrittenTransposeCounterexample | FixedRank.ApplyAmbientTransposeExpand |
| pymanopt/manifolds/strictly_positive_vectors.py:48-49 | `np.zeros(n, k)` passes k as the data-type argument, so numpy raises TypeError | any manifold, e.g. n = 3, k = 1 | `np.zeros((n, k))`, an n x k array of zeros | not executed | StrictlyPositiveVectors.ZeroVecAsWritten | StrictlyPositiveVectors.ZeroVec |
| pymanopt/manifolds/fixed_rank.py:120-128 | proj computes ZtU with the transpose product as written, so for a factored Z with a non-symmetric middle factor Vp is wrong and the result need not be tangent | m = n = 2, k = 1, X = ([[1], [0]], [1], [[0, 1]]), Z = (I, [[0, 1], [0, 0]], I): Vp = [[0], [−1]] and Vt Vp = [[−1]] | Vp = Zᵀ U − Vtᵀ (Uᵀ Z Vtᵀ)ᵀ, a tangent triple | not executed | FixedRank.ProjAsWrittenCounterexample | FixedRank.ProjTangent |

/** The product of several manifolds.  A point, and a tangent vector, is the
    list of its components, one per factor, and every operation hands the
    k-th components to the k-th factor.  The model is generic in the type M
    of a factor, P of its points and V of its tangent vectors; each factor
    operation the product delegates to is a parameter. */
module Product {
  import opened Errors
  import Matrices
  import Stiefel

  /** A product manifold: its factors, in order, stored once by the
      constructor.  The guard on later assignments covers only the public
      name `manifolds` (see `SetAttr`). */
  datatype Product<M> = Product(manifolds: seq<M>)

  /** An argument of the constructor: a manifold, a product manifold (itself
      a manifold), or some other object, known by the text of its type. */
  datatype Candidate<M> =
    | Factor(m: M)
    | NestedProduct(factors: seq<M>)
    | NotManifold(typeName: string)

  /** The error the constructor raises for a candidate it rejects. */
  function Rejection<M>(c: Candidate<M>): Error
  {
    match c
    case NotManifold(t) => ValueError("Unsupport manifold of type '" + t + "'")
    case _ => ValueError("Nested product manifolds are not supported")
  }

  /** The loop over the constructor's arguments: the first rejected candidate
      decides the error; if there is none, the factors in order. */
  function CheckFactors<M>(cs: seq<Candidate<M>>): (r: Result<seq<M>>)
    ensures r.Ok? <==> forall k :: 0 <= k < |cs| ==> cs[k].Factor?
    ensures r.Ok? ==> |r.value| == |cs| && forall k :: 0 <= k < |cs| ==> r.value[k] == cs[k].m
    ensures r.Err? ==> exists k :: 0 <= k < |cs| && !cs[k].Factor? && r.error == Rejection(cs[k])
                          && forall j :: 0 <= j < k ==> cs[j].Factor?
  {
    if |cs| == 0 then Ok([])
    else if !cs[0].Factor? then Err(Rejection(cs[0]))
    else
      match CheckFactors(cs[1..])
      case Err(e) => Err(e)
      case Ok(ms) => Ok([cs[0].m] + ms)
  }

  /** `Product(*manifolds)`: at least one factor, every factor a manifold,
      and none of them a product. */
  function New<M>(cs: seq<Candidate<M>>): (r: Result<Product<M>>)
    ensures r.Ok? <==> |cs| > 0 && forall k :: 0 <= k < |cs| ==> cs[k].Factor?
    ensures |cs| == 0 ==> r == Err(ValueError("At least one manifold required"))
    ensures r.Ok? ==> |r.value.manifolds| == |cs|
                      && forall k :: 0 <= k < |cs| ==> r.value.manifolds[k] == cs[k].m
    ensures |cs| > 0 && r.Err? ==>
      exists k :: 0 <= k < |cs| && !cs[k].Factor? && r.error == Rejection(cs[k])
                  && forall j :: 0 <= j < k ==> cs[j].Factor?
  {
    if |cs| == 0 then Err(ValueError("At least one manifold required"))
    else
      match CheckFactors(cs)
      case Err(e) => Err(e)
      case Ok(ms) => Ok(Product(ms))
  }

  /** A product that rejects the first bad argument even when a later one is
      also bad: a non-manifold ahead of a nested product gives its own error. */
  lemma {:induction false} NewFirstRejectionWins<M>(m: M, t: string, ms: seq<M>)
    ensures New([Factor(m), NotManifold(t), NestedProduct(ms)])
         == Err(ValueError("Unsupport manifold of type '" + t + "'"))
    ensures New([Factor(m), NestedProduct(ms), NotManifold(t)])
         == Err(ValueError("Nested product manifolds are not supported"))
  {
    var cs1: seq<Candidate<M>> := [Factor(m), NotManifold(t), NestedProduct(ms)];
    assert cs1[1..] == [NotManifold(t), NestedProduct(ms)];
    assert CheckFactors(cs1[1..]) == Err(Rejection<M>(NotManifold(t)));
    assert CheckFactors(cs1) == Err(Rejection<M>(NotManifold(t)));
    var cs2: seq<Candidate<M>> := [Factor(m), NestedProduct(ms), NotManifold(t)];
    assert cs2[1..] == [NestedProduct(ms), NotManifold(t)];
    assert CheckFactors(cs2[1..]) == Err(Rejection<M>(NestedProduct(ms)));
    assert CheckFactors(cs2) == Err(Rejection<M>(NestedProduct(ms)));
  }

  // ---------------------------------------------------------------------
  // Dimension and point layout

  function SumInts(s: seq<int>): int
  {
    if |s| == 0 then 0 else SumInts(s[..|s| - 1]) + s[|s| - 1]
  }

  lemma {:induction false} SumIntsAppend(a: seq<int>, b: seq<int>)
    ensures SumInts(a + b) == SumInts(a) + SumInts(b)
    decreases |b|
  {
    if |b| > 0 {
      assert (a + b)[..|a + b| - 1] == a + b[..|b| - 1];
      SumIntsAppend(a, b[..|b| - 1]);
    } else {
      assert a + b == a;
    }
  }

  lemma {:induction false} SumIntsNonNegative(s: seq<int>)
    requires forall k :: 0 <= k < |s| ==> s[k] >= 0
    ensures SumInts(s) >= 0
  {
    if |s| > 0 {
      SumIntsNonNegative(s[..|s| - 1]);
    }
  }

  /** The factors' dimensions, in order. */
  function Dims<M>(P: Product<M>, dim: M -> int): (d: seq<int>)
    ensures |d| == |P.manifolds| && forall k :: 0 <= k < |d| ==> d[k] == dim(P.manifolds[k])
  {
    seq(|P.manifolds|, k requires 0 <= k < |P.manifolds| => dim(P.manifolds[k]))
  }

  /** `dim`: the sum of the factors' dimensions. A product of one factor
      has that factor's dimension, and no product has a negative one unless
      a factor has. */
  function Dim<M>(P: Product<M>, dim: M -> int): (d: int)
    ensures |P.manifolds| == 1 ==> d == dim(P.manifolds[0])
    ensures (forall k :: 0 <= k < |P.manifolds| ==> dim(P.manifolds[k]) >= 0) ==> d >= 0
  {
    var ds := Dims(P, dim);
    assert |ds| == 1 ==> SumInts(ds) == SumInts(ds[..0]) + ds[0] == ds[0];
    if forall k :: 0 <= k < |P.manifolds| ==> dim(P.manifolds[k]) >= 0 then
      SumIntsNonNegative(ds);
      SumInts(ds)
    else
      SumInts(ds)
  }

  /** The dimension adds up over a split of the factors, and is not negative
      when no factor's is. */
  lemma {:induction false} DimSplit<M>(a: seq<M>, b: seq<M>, dim: M -> int)
    ensures Dim(Product(a + b), dim) == Dim(Product(a), dim) + Dim(Product(b), dim)
    ensures (forall k :: 0 <= k < |a| ==> dim(a[k]) >= 0) ==> Dim(Product(a), dim) >= 0
  {
    assert Dims(Product(a + b), dim) == Dims(Product(a), dim) + Dims(Product(b), dim);
    SumIntsAppend(Dims(Product(a), dim), Dims(Product(b), dim));
    if forall k :: 0 <= k < |a| ==> dim(a[k]) >= 0 {
      SumIntsNonNegative(Dims(Product(a), dim));
    }
  }

  /** `point_layout`: the tuple of the factors' layouts, in order. */
  function PointLayout<M>(P: Product<M>, layout: M -> nat): (l: seq<nat>)
    ensures |l| == |P.manifolds| && forall k :: 0 <= k < |l| ==> l[k] == layout(P.manifolds[k])
  {
    seq(|P.manifolds|, k requires 0 <= k < |P.manifolds| => layout(P.manifolds[k]))
  }

  // ---------------------------------------------------------------------
  // Inner product

  /** The sum of the first n factors' inner products. */
  function InnerUpTo<M, P, V>(Pm: Product<M>, inner: (M, P, V, V) --> real,
                              X: seq<P>, G: seq<V>, H: seq<V>, n: nat): real
    requires n <= |Pm.manifolds| == |X| == |G| == |H|
    requires forall k :: 0 <= k < n ==> inner.requires(Pm.manifolds[k], X[k], G[k], H[k])
  {
    if n == 0 then 0.0
    else InnerUpTo(Pm, inner, X, G, H, n - 1) + inner(Pm.manifolds[n - 1], X[n - 1], G[n - 1], H[n - 1])
  }

  /** `inner`: the sum over the factors of their inner products of the
      corresponding components. */
  function Inner<M, P, V>(Pm: Product<M>, inner: (M, P, V, V) --> real,
                          X: seq<P>, G: seq<V>, H: seq<V>): (r: real)
    requires |Pm.manifolds| == |X| == |G| == |H|
    requires forall k :: 0 <= k < |X| ==> inner.requires(Pm.manifolds[k], X[k], G[k], H[k])
    ensures |X| == 1 ==> r == inner(Pm.manifolds[0], X[0], G[0], H[0])
  {
    if |X| == 1 then
      assert InnerUpTo(Pm, inner, X, G, H, 1) == InnerUpTo(Pm, inner, X, G, H, 0) + inner(Pm.manifolds[0], X[0], G[0], H[0]);
      InnerUpTo(Pm, inner, X, G, H, |X|)
    else
      InnerUpTo(Pm, inner, X, G, H, |X|)
  }

  lemma {:induction false} InnerUpToSymmetric<M, P, V>(Pm: Product<M>, inner: (M, P, V, V) --> real,
                                                      X: seq<P>, G: seq<V>, H: seq<V>, n: nat)
    requires n <= |Pm.manifolds| == |X| == |G| == |H|
    requires forall k :: 0 <= k < |X| ==> inner.requires(Pm.manifolds[k], X[k], G[k], H[k])
    requires forall k :: 0 <= k < |X| ==> inner.requires(Pm.manifolds[k], X[k], H[k], G[k])
    requires forall k :: 0 <= k < |X| ==>
      inner(Pm.manifolds[k], X[k], G[k], H[k]) == inner(Pm.manifolds[k], X[k], H[k], G[k])
    ensures InnerUpTo(Pm, inner, X, G, H, n) == InnerUpTo(Pm, inner, X, H, G, n)
  {
    if n > 0 {
      InnerUpToSymmetric(Pm, inner, X, G, H, n - 1);
    }
  }

  /** The product inner product is symmetric when every factor's is. */
  lemma {:induction false} InnerSymmetric<M, P, V>(Pm: Product<M>, inner: (M, P, V, V) --> real,
                                X: seq<P>, G: seq<V>, H: seq<V>)
    requires |Pm.manifolds| == |X| == |G| == |H|
    requires forall k :: 0 <= k < |X| ==> inner.requires(Pm.manifolds[k], X[k], G[k], H[k])
    requires forall k :: 0 <= k < |X| ==> inner.requires(Pm.manifolds[k], X[k], H[k], G[k])
    requires forall k :: 0 <= k < |X| ==>
      inner(Pm.manifolds[k], X[k], G[k], H[k]) == inner(Pm.manifolds[k], X[k], H[k], G[k])
    ensures Inner(Pm, inner, X, G, H) == Inner(Pm, inner, X, H, G)
  {
    InnerUpToSymmetric(Pm, inner, X, G, H, |X|);
  }

  lemma {:induction false} InnerUpToNonNegative<M, P, V>(Pm: Product<M>, inner: (M, P, V, V) --> real,
                                                        X: seq<P>, G: seq<V>, n: nat)
    requires n <= |Pm.manifolds| == |X| == |G|
    requires forall k :: 0 <= k < |X| ==> inner.requires(Pm.manifolds[k], X[k], G[k], G[k])
    requires forall k :: 0 <= k < |X| ==> inner(Pm.manifolds[k], X[k], G[k], G[k]) >= 0.0
    ensures InnerUpTo(Pm, inner, X, G, G, n) >= 0.0
  {
    if n > 0 {
      InnerUpToNonNegative(Pm, inner, X, G, n - 1);
    }
  }

  /** A sum of non-negative factor terms is 0 only when every term is. */
  lemma {:induction false} InnerUpToZeroTerms<M, P, V>(Pm: Product<M>, inner: (M, P, V, V) --> real,
                                                      X: seq<P>, G: seq<V>, n: nat)
    requires n <= |Pm.manifolds| == |X| == |G|
    requires forall k :: 0 <= k < |X| ==> inner.requires(Pm.manifolds[k], X[k], G[k], G[k])
    requires forall k :: 0 <= k < |X| ==> inner(Pm.manifolds[k], X[k], G[k], G[k]) >= 0.0
    requires InnerUpTo(Pm, inner, X, G, G, n) == 0.0
    ensures forall k :: 0 <= k < n ==> inner(Pm.manifolds[k], X[k], G[k], G[k]) == 0.0
  {
    if n > 0 {
      InnerUpToNonNegative(Pm, inner, X, G, n - 1);
      InnerUpToZeroTerms(Pm, inner, X, G, n - 1);
    }
  }

  /** inner(X, G, G), the square of `norm(X, G)`, is never negative when no
      factor's is, and it is 0 only when every factor's is, so the product
      metric is definite when every factor's is. */
  lemma {:induction false} InnerNonNegative<M, P, V>(Pm: Product<M>, inner: (M, P, V, V) --> real, X: seq<P>, G: seq<V>)
    requires |Pm.manifolds| == |X| == |G|
    requires forall k :: 0 <= k < |X| ==> inner.requires(Pm.manifolds[k], X[k], G[k], G[k])
    requires forall k :: 0 <= k < |X| ==> inner(Pm.manifolds[k], X[k], G[k], G[k]) >= 0.0
    ensures Inner(Pm, inner, X, G, G) >= 0.0
    ensures Inner(Pm, inner, X, G, G) == 0.0 ==>
      forall k :: 0 <= k < |X| ==> inner(Pm.manifolds[k], X[k], G[k], G[k]) == 0.0
  {
    InnerUpToNonNegative(Pm, inner, X, G, |X|);
    if Inner(Pm, inner, X, G, G) == 0.0 {
      InnerUpToZeroTerms(Pm, inner, X, G, |X|);
    }
  }

  /** `InnerAdd` over the first n factors. */
  lemma {:induction false} InnerUpToAdd<M, P, V>(Pm: Product<M>, inner: (M, P, V, V) -> real,
                                                X: seq<P>, G: seq<V>, H: seq<V>, S: seq<V>, K: seq<V>, n: nat)
    requires n <= |Pm.manifolds| == |X| == |G| == |H| == |S| == |K|
    requires forall k :: 0 <= k < |X| ==>
      inner(Pm.manifolds[k], X[k], S[k], K[k]) == inner(Pm.manifolds[k], X[k], G[k], K[k]) + inner(Pm.manifolds[k], X[k], H[k], K[k])
    ensures InnerUpTo(Pm, inner, X, S, K, n) == InnerUpTo(Pm, inner, X, G, K, n) + InnerUpTo(Pm, inner, X, H, K, n)
  {
    if n > 0 {
      InnerUpToAdd(Pm, inner, X, G, H, S, K, n - 1);
    }
  }

  /** The product inner product is additive in its first argument when
      every factor's is: <G + H, K> == <G, K> + <H, K>. */
  lemma {:induction false} InnerAdd<M, P, V>(Pm: Product<M>, inner: (M, P, V, V) -> real, add: (V, V) -> V,
                                            X: seq<P>, G: TangentVector<V>, H: TangentVector<V>, K: seq<V>)
    requires |Pm.manifolds| == |X| == |G.parts| == |H.parts| == |K|
    requires forall k :: 0 <= k < |X| ==>
      inner(Pm.manifolds[k], X[k], add(G.parts[k], H.parts[k]), K[k])
        == inner(Pm.manifolds[k], X[k], G.parts[k], K[k]) + inner(Pm.manifolds[k], X[k], H.parts[k], K[k])
    ensures AddVec(G, H, add).Ok?
    ensures Inner(Pm, inner, X, AddVec(G, H, add).value.parts, K)
         == Inner(Pm, inner, X, G.parts, K) + Inner(Pm, inner, X, H.parts, K)
  {
    InnerUpToAdd(Pm, inner, X, G.parts, H.parts, AddVec(G, H, add).value.parts, K, |X|);
  }

  /** `InnerScale` over the first n factors. */
  lemma {:induction false} InnerUpToScale<M, P, V>(Pm: Product<M>, inner: (M, P, V, V) -> real, c: real,
                                                  X: seq<P>, G: seq<V>, S: seq<V>, K: seq<V>, n: nat)
    requires n <= |Pm.manifolds| == |X| == |G| == |S| == |K|
    requires forall k :: 0 <= k < |X| ==>
      inner(Pm.manifolds[k], X[k], S[k], K[k]) == c * inner(Pm.manifolds[k], X[k], G[k], K[k])
    ensures InnerUpTo(Pm, inner, X, S, K, n) == c * InnerUpTo(Pm, inner, X, G, K, n)
  {
    if n > 0 {
      InnerUpToScale(Pm, inner, c, X, G, S, K, n - 1);
      var a, b := InnerUpTo(Pm, inner, X, G, K, n - 1), inner(Pm.manifolds[n - 1], X[n - 1], G[n - 1], K[n - 1]);
      assert c * (a + b) == c * a + c * b;
    }
  }

  /** The product inner product is homogeneous in its first argument when
      every factor's is: <c G, K> == c <G, K>. */
  lemma {:induction false} InnerScale<M, P, V>(Pm: Product<M>, inner: (M, P, V, V) -> real, scale: (real, V) -> V,
                                              c: real, X: seq<P>, G: TangentVector<V>, K: seq<V>)
    requires |Pm.manifolds| == |X| == |G.parts| == |K|
    requires forall k :: 0 <= k < |X| ==>
      inner(Pm.manifolds[k], X[k], scale(c, G.parts[k]), K[k]) == c * inner(Pm.manifolds[k], X[k], G.parts[k], K[k])
    ensures Inner(Pm, inner, X, ScaleVec(c, G, scale).parts, K) == c * Inner(Pm, inner, X, G.parts, K)
  {
    InnerUpToScale(Pm, inner, c, X, G.parts, ScaleVec(c, G, scale).parts, K, |X|);
  }

  lemma {:induction false} InnerUpToZero<M, P, V>(Pm: Product<M>, inner: (M, P, V, V) --> real,
                                                 X: seq<P>, G: seq<V>, H: seq<V>, n: nat)
    requires n <= |Pm.manifolds| == |X| == |G| == |H|
    requires forall k :: 0 <= k < |X| ==> inner.requires(Pm.manifolds[k], X[k], G[k], H[k])
    requires forall k :: 0 <= k < |X| ==> inner(Pm.manifolds[k], X[k], G[k], H[k]) == 0.0
    ensures InnerUpTo(Pm, inner, X, G, H, n) == 0.0
  {
    if n > 0 {
      InnerUpToZero(Pm, inner, X, G, H, n - 1);
    }
  }

  // ---------------------------------------------------------------------
  // Tangent vectors

  /** `_TangentVector`: a list of the factors' tangent vectors. */
  datatype TangentVector<V> = TangentVector(parts: seq<V>)

  /** `G + H`: an assertion that the lengths agree, then componentwise. */
  function AddVec<V>(G: TangentVector<V>, H: TangentVector<V>, add: (V, V) --> V): (r: Result<TangentVector<V>>)
    requires forall k :: 0 <= k < |G.parts| && k < |H.parts| ==> add.requires(G.parts[k], H.parts[k])
    ensures r.Ok? <==> |G.parts| == |H.parts|
    ensures r.Err? ==> r.error == AssertionError
    ensures r.Ok? ==> |r.value.parts| == |G.parts|
    ensures r.Ok? ==> forall k :: 0 <= k < |G.parts| ==> r.value.parts[k] == add(G.parts[k], H.parts[k])
  {
    if |G.parts| != |H.parts| then Err(AssertionError)
    else Ok(TangentVector(seq(|G.parts|, k requires 0 <= k < |G.parts| => add(G.parts[k], H.parts[k]))))
  }

  /** `G - H`: an assertion that the lengths agree, then componentwise. */
  function SubVec<V>(G: TangentVector<V>, H: TangentVector<V>, sub: (V, V) --> V): (r: Result<TangentVector<V>>)
    requires forall k :: 0 <= k < |G.parts| && k < |H.parts| ==> sub.requires(G.parts[k], H.parts[k])
    ensures r.Ok? <==> |G.parts| == |H.parts|
    ensures r.Err? ==> r.error == AssertionError
    ensures r.Ok? ==> |r.value.parts| == |G.parts|
    ensures r.Ok? ==> forall k :: 0 <= k < |G.parts| ==> r.value.parts[k] == sub(G.parts[k], H.parts[k])
  {
    if |G.parts| != |H.parts| then Err(AssertionError)
    else Ok(TangentVector(seq(|G.parts|, k requires 0 <= k < |G.parts| => sub(G.parts[k], H.parts[k]))))
  }

  /** `c * G`, componentwise. */
  function ScaleVec<V>(c: real, G: TangentVector<V>, scale: (real, V) --> V): (r: TangentVector<V>)
    requires forall k :: 0 <= k < |G.parts| ==> scale.requires(c, G.parts[k])
    ensures |r.parts| == |G.parts| && forall k :: 0 <= k < |G.parts| ==> r.parts[k] == scale(c, G.parts[k])
  {
    TangentVector(seq(|G.parts|, k requires 0 <= k < |G.parts| => scale(c, G.parts[k])))
  }

  /** `-G`, componentwise. */
  function NegVec<V>(G: TangentVector<V>, neg: V --> V): (r: TangentVector<V>)
    requires forall k :: 0 <= k < |G.parts| ==> neg.requires(G.parts[k])
    ensures |r.parts| == |G.parts| && forall k :: 0 <= k < |G.parts| ==> r.parts[k] == neg(G.parts[k])
  {
    TangentVector(seq(|G.parts|, k requires 0 <= k < |G.parts| => neg(G.parts[k])))
  }

  /** (G + H) - H == G whenever that holds in every component. */
  lemma {:induction false} SubAfterAdd<V>(G: TangentVector<V>, H: TangentVector<V>, add: (V, V) -> V, sub: (V, V) -> V)
    requires |G.parts| == |H.parts|
    requires forall k :: 0 <= k < |G.parts| ==> sub(add(G.parts[k], H.parts[k]), H.parts[k]) == G.parts[k]
    ensures AddVec(G, H, add).Ok?
    ensures SubVec(AddVec(G, H, add).value, H, sub) == Ok(G)
  {
    var S := AddVec(G, H, add).value;
    assert SubVec(S, H, sub).value.parts == G.parts;
  }

  // ---------------------------------------------------------------------
  // Delegating operations

  /** `proj(X, U)`: factor k projects U[k] at X[k]. */
  function Proj<M, P, V>(Pm: Product<M>, proj: (M, P, V) --> V, X: seq<P>, U: seq<V>): (r: TangentVector<V>)
    requires |Pm.manifolds| == |X| == |U|
    requires forall k :: 0 <= k < |X| ==> proj.requires(Pm.manifolds[k], X[k], U[k])
    ensures |r.parts| == |X| && forall k :: 0 <= k < |X| ==> r.parts[k] == proj(Pm.manifolds[k], X[k], U[k])
  {
    TangentVector(seq(|X|, k requires 0 <= k < |X| => proj(Pm.manifolds[k], X[k], U[k])))
  }

  /** `egrad2rgrad(X, U)`: factor k converts U[k] at X[k]. */
  function EGrad2RGrad<M, P, V>(Pm: Product<M>, egrad2rgrad: (M, P, V) --> V, X: seq<P>, U: seq<V>)
    : (r: TangentVector<V>)
    requires |Pm.manifolds| == |X| == |U|
    requires forall k :: 0 <= k < |X| ==> egrad2rgrad.requires(Pm.manifolds[k], X[k], U[k])
    ensures |r.parts| == |X|
      && forall k :: 0 <= k < |X| ==> r.parts[k] == egrad2rgrad(Pm.manifolds[k], X[k], U[k])
  {
    TangentVector(seq(|X|, k requires 0 <= k < |X| => egrad2rgrad(Pm.manifolds[k], X[k], U[k])))
  }

  /** `ehess2rhess(X, egrad, ehess, H)`, factor by factor. */
  function EHess2RHess<M, P, V>(Pm: Product<M>, ehess2rhess: (M, P, V, V, V) --> V,
                                X: seq<P>, egrad: seq<V>, ehess: seq<V>, H: seq<V>): (r: TangentVector<V>)
    requires |Pm.manifolds| == |X| == |egrad| == |ehess| == |H|
    requires forall k :: 0 <= k < |X| ==> ehess2rhess.requires(Pm.manifolds[k], X[k], egrad[k], ehess[k], H[k])
    ensures |r.parts| == |X|
      && forall k :: 0 <= k < |X| ==> r.parts[k] == ehess2rhess(Pm.manifolds[k], X[k], egrad[k], ehess[k], H[k])
  {
    TangentVector(seq(|X|, k requires 0 <= k < |X| => ehess2rhess(Pm.manifolds[k], X[k], egrad[k], ehess[k], H[k])))
  }

  /** `exp(X, U)`: a plain list of the factors' points. */
  function Exp<M, P, V>(Pm: Product<M>, exp: (M, P, V) --> P, X: seq<P>, U: seq<V>): (r: seq<P>)
    requires |Pm.manifolds| == |X| == |U|
    requires forall k :: 0 <= k < |X| ==> exp.requires(Pm.manifolds[k], X[k], U[k])
    ensures |r| == |X| && forall k :: 0 <= k < |X| ==> r[k] == exp(Pm.manifolds[k], X[k], U[k])
  {
    seq(|X|, k requires 0 <= k < |X| => exp(Pm.manifolds[k], X[k], U[k]))
  }

  /** `retr(X, U)`: a plain list of the factors' points. */
  function Retr<M, P, V>(Pm: Product<M>, retr: (M, P, V) --> P, X: seq<P>, U: seq<V>): (r: seq<P>)
    requires |Pm.manifolds| == |X| == |U|
    requires forall k :: 0 <= k < |X| ==> retr.requires(Pm.manifolds[k], X[k], U[k])
    ensures |r| == |X| && forall k :: 0 <= k < |X| ==> r[k] == retr(Pm.manifolds[k], X[k], U[k])
  {
    seq(|X|, k requires 0 <= k < |X| => retr(Pm.manifolds[k], X[k], U[k]))
  }

  /** `log(X, Y)`: a tangent vector, factor by factor. */
  function Log<M, P, V>(Pm: Product<M>, log: (M, P, P) --> V, X: seq<P>, Y: seq<P>): (r: TangentVector<V>)
    requires |Pm.manifolds| == |X| == |Y|
    requires forall k :: 0 <= k < |X| ==> log.requires(Pm.manifolds[k], X[k], Y[k])
    ensures |r.parts| == |X| && forall k :: 0 <= k < |X| ==> r.parts[k] == log(Pm.manifolds[k], X[k], Y[k])
  {
    TangentVector(seq(|X|, k requires 0 <= k < |X| => log(Pm.manifolds[k], X[k], Y[k])))
  }

  /** `transp(X1, X2, G)`, factor by factor. */
  function Transp<M, P, V>(Pm: Product<M>, transp: (M, P, P, V) --> V, X1: seq<P>, X2: seq<P>, G: seq<V>)
    : (r: TangentVector<V>)
    requires |Pm.manifolds| == |X1| == |X2| == |G|
    requires forall k :: 0 <= k < |X1| ==> transp.requires(Pm.manifolds[k], X1[k], X2[k], G[k])
    ensures |r.parts| == |X1|
      && forall k :: 0 <= k < |X1| ==> r.parts[k] == transp(Pm.manifolds[k], X1[k], X2[k], G[k])
  {
    TangentVector(seq(|X1|, k requires 0 <= k < |X1| => transp(Pm.manifolds[k], X1[k], X2[k], G[k])))
  }

  /** `pairmean(X, Y)`: a plain list of the factors' points. */
  function PairMean<M, P>(Pm: Product<M>, pairmean: (M, P, P) --> P, X: seq<P>, Y: seq<P>): (r: seq<P>)
    requires |Pm.manifolds| == |X| == |Y|
    requires forall k :: 0 <= k < |X| ==> pairmean.requires(Pm.manifolds[k], X[k], Y[k])
    ensures |r| == |X| && forall k :: 0 <= k < |X| ==> r[k] == pairmean(Pm.manifolds[k], X[k], Y[k])
  {
    seq(|X|, k requires 0 <= k < |X| => pairmean(Pm.manifolds[k], X[k], Y[k]))
  }

  /** `zerovec(X)`: the factors' zero vectors. */
  function ZeroVec<M, P, V>(Pm: Product<M>, zerovec: (M, P) --> V, X: seq<P>): (r: TangentVector<V>)
    requires |Pm.manifolds| == |X|
    requires forall k :: 0 <= k < |X| ==> zerovec.requires(Pm.manifolds[k], X[k])
    ensures |r.parts| == |X| && forall k :: 0 <= k < |X| ==> r.parts[k] == zerovec(Pm.manifolds[k], X[k])
  {
    TangentVector(seq(|X|, k requires 0 <= k < |X| => zerovec(Pm.manifolds[k], X[k])))
  }

  /** The product's projection is idempotent when every factor's is. */
  lemma {:induction false} ProjIdempotent<M, P, V>(Pm: Product<M>, proj: (M, P, V) -> V, X: seq<P>, U: seq<V>)
    requires |Pm.manifolds| == |X| == |U|
    requires forall k :: 0 <= k < |X| ==>
      proj(Pm.manifolds[k], X[k], proj(Pm.manifolds[k], X[k], U[k])) == proj(Pm.manifolds[k], X[k], U[k])
    ensures Proj(Pm, proj, X, Proj(Pm, proj, X, U).parts) == Proj(Pm, proj, X, U)
  {
    var once := Proj(Pm, proj, X, U);
    assert Proj(Pm, proj, X, once.parts).parts == once.parts;
  }

  /** The zero vector is orthogonal to everything when every factor's is. */
  lemma {:induction false} ZeroVecInner<M, P, V>(Pm: Product<M>, zerovec: (M, P) -> V, inner: (M, P, V, V) -> real,
                              X: seq<P>, H: seq<V>)
    requires |Pm.manifolds| == |X| == |H|
    requires forall k :: 0 <= k < |X| ==> inner(Pm.manifolds[k], X[k], zerovec(Pm.manifolds[k], X[k]), H[k]) == 0.0
    ensures Inner(Pm, inner, X, ZeroVec(Pm, zerovec, X).parts, H) == 0.0
  {
    InnerUpToZero(Pm, inner, X, ZeroVec(Pm, zerovec, X).parts, H, |X|);
  }

  // ---------------------------------------------------------------------
  // Guarding the `manifolds` attribute

  /** `__setattr__(key, value)` on an object whose attributes are `attrs`:
      rebinding an existing attribute named `manifolds` is refused. */
  function SetAttr<A>(attrs: map<string, A>, key: string, value: A): (r: Result<map<string, A>>)
    ensures r.Err? <==> key == "manifolds" && key in attrs
    ensures r.Err? ==> r.error == AttributeError("Cannot override 'manifolds' attribute")
    ensures r.Ok? ==> r.value.Keys == attrs.Keys + {key} && r.value[key] == value
    ensures r.Ok? ==> forall other :: other in attrs && other != key ==> r.value[other] == attrs[other]
  {
    if key in attrs && key == "manifolds" then Err(AttributeError("Cannot override 'manifolds' attribute"))
    else Ok(attrs[key := value])
  }

  /** `manifolds` can be bound once but never rebound; any other attribute
      can be rebound freely. */
  lemma {:induction false} ManifoldsSetOnce<A>(attrs: map<string, A>, v1: A, v2: A, key: string)
    requires "manifolds" !in attrs && key != "manifolds"
    ensures SetAttr(attrs, "manifolds", v1).Ok?
    ensures SetAttr(SetAttr(attrs, "manifolds", v1).value, "manifolds", v2).Err?
    ensures SetAttr(attrs, key, v1).Ok? && SetAttr(SetAttr(attrs, key, v1).value, key, v2).Ok?
  {
  }

  /** The attribute table of a product manifold object, which
      `__setattr__` updates in place. */
  class Attributes<A> {
    var attrs: map<string, A>

    constructor (initial: map<string, A>)
      ensures attrs == initial
    {
      attrs := initial;
    }

    /** `__setattr__(key, value)`: raises AttributeError and changes nothing
        when it would rebind `manifolds`; otherwise binds key to value in
        place, as `SetAttr` describes. */
    method Set(key: string, value: A) returns (r: Result<()>)
      modifies this
      ensures r.Err? <==> SetAttr(old(attrs), key, value).Err?
      ensures r.Err? ==> r.error == SetAttr(old(attrs), key, value).error && attrs == old(attrs)
      ensures r.Ok? ==> attrs == SetAttr(old(attrs), key, value).value
    {
      if key in attrs && key == "manifolds" {
        r := Err(AttributeError("Cannot override 'manifolds' attribute"));
      } else {
        attrs := attrs[key := value];
        r := Ok(());
      }
    }
  }

  // ---------------------------------------------------------------------
  // A product of Stiefel manifolds

  /** Stiefel's `proj` as a factor operation. */
  function StiefelProj(M: Stiefel.Manifold, X: seq<Matrices.Matrix>, U: seq<Matrices.Matrix>): (r: seq<Matrices.Matrix>)
    requires Stiefel.Valid(M) && Stiefel.Conforms(M, X) && Stiefel.Conforms(M, U)
    ensures Stiefel.Conforms(M, r)
  {
    Stiefel.Proj(M, X, U)
  }

  /** Points of a product of Stiefel manifolds, with an ambient vector of
      the same shape. */
  predicate StiefelArguments(Pm: Product<Stiefel.Manifold>, X: seq<seq<Matrices.Matrix>>,
                             U: seq<seq<Matrices.Matrix>>)
  {
    |Pm.manifolds| == |X| == |U|
    && forall k :: 0 <= k < |X| ==> Stiefel.IsPoint(Pm.manifolds[k], X[k]) && Stiefel.Conforms(Pm.manifolds[k], U[k])
  }

  /** `proj` on a product of Stiefel manifolds: every component is the
      Stiefel projection of its own block. */
  function StiefelProductProj(Pm: Product<Stiefel.Manifold>, X: seq<seq<Matrices.Matrix>>,
                              U: seq<seq<Matrices.Matrix>>): (r: TangentVector<seq<Matrices.Matrix>>)
    requires StiefelArguments(Pm, X, U)
    ensures |r.parts| == |X|
    ensures forall k :: 0 <= k < |X| ==> r.parts[k] == Stiefel.Proj(Pm.manifolds[k], X[k], U[k])
  {
    assert forall k :: 0 <= k < |X| ==> StiefelProj.requires(Pm.manifolds[k], X[k], U[k]);
    Proj(Pm, StiefelProj, X, U)
  }

  /** On a product of Stiefel manifolds, the delegated `proj` puts every
      component in its factor's tangent space, and fixes what it produced. */
  lemma {:induction false} StiefelProductProjTangent(Pm: Product<Stiefel.Manifold>, X: seq<seq<Matrices.Matrix>>,
                                  U: seq<seq<Matrices.Matrix>>)
    requires StiefelArguments(Pm, X, U)
    ensures StiefelArguments(Pm, X, StiefelProductProj(Pm, X, U).parts)
    ensures forall k :: 0 <= k < |X| ==>
              Stiefel.IsTangent(Pm.manifolds[k], X[k], StiefelProductProj(Pm, X, U).parts[k])
    ensures StiefelProductProj(Pm, X, StiefelProductProj(Pm, X, U).parts) == StiefelProductProj(Pm, X, U)
  {
    var R := StiefelProductProj(Pm, X, U);
    forall k | 0 <= k < |X|
      ensures Stiefel.IsTangent(Pm.manifolds[k], X[k], R.parts[k])
      ensures Stiefel.Proj(Pm.manifolds[k], X[k], R.parts[k]) == R.parts[k]
    {
      Stiefel.ProjTangent(Pm.manifolds[k], X[k], U[k]);
      Stiefel.ProjIdempotent(Pm.manifolds[k], X[k], U[k]);
    }
    assert StiefelProductProj(Pm, X, R.parts).parts == R.parts;
  }
}

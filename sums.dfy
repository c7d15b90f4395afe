/** Finite sums over an index range, the building block of every matrix product
    and inner product in this model. */
module Sums {

  /** f(0) + f(1) + ... + f(n - 1). */
  function Sum(n: nat, f: int -> real): real
  {
    if n == 0 then 0.0 else Sum(n - 1, f) + f(n - 1)
  }

  lemma {:induction false} SumExt(n: nat, f: int -> real, g: int -> real)
    requires forall i :: 0 <= i < n ==> f(i) == g(i)
    ensures Sum(n, f) == Sum(n, g)
  {
    if n > 0 {
      SumExt(n - 1, f, g);
    }
  }

  lemma {:induction false} SumAdd(n: nat, f: int -> real, g: int -> real, h: int -> real)
    requires forall i :: 0 <= i < n ==> h(i) == f(i) + g(i)
    ensures Sum(n, h) == Sum(n, f) + Sum(n, g)
  {
    if n > 0 {
      SumAdd(n - 1, f, g, h);
    }
  }

  lemma {:induction false} SumSub(n: nat, f: int -> real, g: int -> real, h: int -> real)
    requires forall i :: 0 <= i < n ==> h(i) == f(i) - g(i)
    ensures Sum(n, h) == Sum(n, f) - Sum(n, g)
  {
    if n > 0 {
      SumSub(n - 1, f, g, h);
    }
  }

  lemma {:induction false} SumScale(n: nat, c: real, f: int -> real, g: int -> real)
    requires forall i :: 0 <= i < n ==> g(i) == c * f(i)
    ensures Sum(n, g) == c * Sum(n, f)
  {
    if n > 0 {
      SumScale(n - 1, c, f, g);
    }
  }

  /** `SumScale` with both sums named, for callers whose sums are
      definitions in their own right. */
  lemma {:induction false} SumScaleTo(n: nat, c: real, f: int -> real, g: int -> real, x: real, y: real)
    requires forall i :: 0 <= i < n ==> g(i) == c * f(i)
    requires x == Sum(n, f) && y == Sum(n, g)
    ensures y == c * x
  {
    SumScale(n, c, f, g);
  }

  lemma {:induction false} SumZero(n: nat, f: int -> real)
    requires forall i :: 0 <= i < n ==> f(i) == 0.0
    ensures Sum(n, f) == 0.0
  {
    if n > 0 {
      SumZero(n - 1, f);
    }
  }

  lemma {:induction false} SumNonNegative(n: nat, f: int -> real)
    requires forall i :: 0 <= i < n ==> f(i) >= 0.0
    ensures Sum(n, f) >= 0.0
  {
    if n > 0 {
      SumNonNegative(n - 1, f);
    }
  }

  /** A sum of non-negative terms is 0 only when every term is 0. */
  lemma {:induction false} SumNonNegativeZero(n: nat, f: int -> real)
    requires forall i :: 0 <= i < n ==> f(i) >= 0.0
    requires Sum(n, f) == 0.0
    ensures forall i :: 0 <= i < n ==> f(i) == 0.0
  {
    if n > 0 {
      SumNonNegative(n - 1, f);
      SumNonNegativeZero(n - 1, f);
    }
  }

  /** A sum whose terms vanish except at j is its j-th term. */
  lemma {:induction false} SumSingle(n: nat, f: int -> real, j: int)
    requires 0 <= j < n
    requires forall i :: 0 <= i < n && i != j ==> f(i) == 0.0
    ensures Sum(n, f) == f(j)
  {
    if j < n - 1 {
      SumSingle(n - 1, f, j);
    } else {
      SumZero(n - 1, f);
    }
  }

  /** Row i of a double sum: f(i, 0) + ... + f(i, m - 1). */
  function RowSum(f: (int, int) -> real, m: nat, i: int): real
  {
    Sum(m, j => f(i, j))
  }

  /** Column j of a double sum: f(0, j) + ... + f(n - 1, j). */
  function ColSum(f: (int, int) -> real, n: nat, j: int): real
  {
    Sum(n, i => f(i, j))
  }

  /** A double sum can be taken row by row or column by column. */
  lemma {:induction false} SumSwap(n: nat, m: nat, f: (int, int) -> real)
    ensures Sum(n, i => RowSum(f, m, i)) == Sum(m, j => ColSum(f, n, j))
  {
    if n > 0 {
      SumSwap(n - 1, m, f);
      SumAdd(m, j => ColSum(f, n - 1, j), j => f(n - 1, j), j => ColSum(f, n, j));
    } else {
      SumZero(m, j => ColSum(f, n, j));
    }
  }

  /** Changing one term of a sum changes the sum by the same amount. */
  lemma {:induction false} SumUpdate(n: nat, f: int -> real, g: int -> real, t: int)
    requires 0 <= t < n
    requires forall i :: 0 <= i < n && i != t ==> f(i) == g(i)
    ensures Sum(n, g) == Sum(n, f) - f(t) + g(t)
  {
    if t == n - 1 {
      SumExt(n - 1, f, g);
    } else {
      SumUpdate(n - 1, f, g, t);
    }
  }

  /** s maps 0 .. n - 1 onto itself and undoes itself. */
  predicate Involution(n: nat, s: int -> int)
  {
    (forall i :: 0 <= i < n ==> 0 <= s(i) < n)
    && forall i {:trigger s(s(i))} :: 0 <= i < n ==> s(s(i)) == i
  }

  /** The terms of f taken in the order s gives. */
  function Compose(f: int -> real, s: int -> int): int -> real
  {
    i => f(s(i))
  }

  /** s with t made a fixed point. */
  function FixAt(s: int -> int, t: int): int -> int
  {
    i => if i == t then t else s(i)
  }

  /** An involution of 0 .. n - 1 that fixes n - 1 is one of 0 .. n - 2. */
  lemma {:induction false} InvolutionDropFixed(n: nat, s: int -> int)
    requires n > 0 && Involution(n, s) && s(n - 1) == n - 1
    ensures Involution(n - 1, s)
  {
    forall i | 0 <= i < n - 1
      ensures 0 <= s(i) < n - 1 && s(s(i)) == i
    {
      assert s(s(i)) == i;
    }
  }

  /** An involution of 0 .. n - 1 that swaps t and n - 1 becomes one of
      0 .. n - 2 once t is made a fixed point. */
  lemma {:induction false} InvolutionDropSwapped(n: nat, s: int -> int, t: int)
    requires n > 0 && Involution(n, s) && t == s(n - 1) && t != n - 1
    ensures 0 <= t < n - 1 && s(t) == n - 1
    ensures Involution(n - 1, FixAt(s, t))
  {
    var s2 := FixAt(s, t);
    forall i | 0 <= i < n - 1
      ensures 0 <= s2(i) < n - 1 && s2(s2(i)) == i
    {
      if i != t {
        assert s(s(i)) == i;
        assert s(i) != n - 1 && s(i) != t;
      }
    }
  }

  /** The step of `SumInvolution` where the involution swaps t and n - 1:
      g is f reordered, g2 is g with t made a fixed point. */
  lemma {:induction false} SumSwappedLast(n: nat, f: int -> real, g: int -> real, g2: int -> real, t: int)
    requires 0 <= t < n - 1
    requires forall i :: 0 <= i < n - 1 && i != t ==> g2(i) == g(i)
    requires g2(t) == f(t) && g(t) == f(n - 1) && g(n - 1) == f(t)
    requires Sum(n - 1, g2) == Sum(n - 1, f)
    ensures Sum(n, g) == Sum(n, f)
  {
    SumUpdate(n - 1, g2, g, t);
  }

  /** `SumSwappedLast` for g == Compose(f, s) and g2 == Compose(f, FixAt(s, t)). */
  lemma {:induction false} SumSwappedStep(n: nat, f: int -> real, s: int -> int, t: int)
    requires 0 <= t < n - 1 && s(n - 1) == t && s(t) == n - 1
    requires Sum(n - 1, Compose(f, FixAt(s, t))) == Sum(n - 1, f)
    ensures Sum(n, Compose(f, s)) == Sum(n, f)
  {
    ComposeFixAt(f, s, t);
    SumSwappedLast(n, f, Compose(f, s), Compose(f, FixAt(s, t)), t);
  }

  /** Making t a fixed point changes only the t-th term. */
  lemma {:induction false} ComposeFixAt(f: int -> real, s: int -> int, t: int)
    ensures forall i :: i != t ==> Compose(f, FixAt(s, t))(i) == Compose(f, s)(i)
    ensures Compose(f, FixAt(s, t))(t) == f(t)
  {
  }

  /** An involution of 0 .. n - 1 only reorders the terms of a sum. */
  lemma {:induction false} SumInvolution(n: nat, f: int -> real, s: int -> int)
    requires Involution(n, s)
    ensures Sum(n, Compose(f, s)) == Sum(n, f)
  {
    if n > 0 {
      var t := s(n - 1);
      if t == n - 1 {
        assert Sum(n - 1, Compose(f, s)) == Sum(n - 1, f) by {
          InvolutionDropFixed(n, s);
          SumInvolution(n - 1, f, s);
        }
      } else {
        assert 0 <= t < n - 1 && s(t) == n - 1 by {
          InvolutionDropSwapped(n, s, t);
        }
        assert Sum(n - 1, Compose(f, FixAt(s, t))) == Sum(n - 1, f) by {
          InvolutionDropSwapped(n, s, t);
          SumInvolution(n - 1, f, FixAt(s, t));
        }
        SumSwappedStep(n, f, s, t);
      }
    }
  }

  /** Averaging each term with its image under an involution keeps the sum. */
  lemma {:induction false} SumAverageInvolution(n: nat, f: int -> real, h: int -> real, s: int -> int)
    requires Involution(n, s)
    requires forall i :: 0 <= i < n ==> h(i) == (f(i) + f(s(i))) / 2.0
    ensures Sum(n, h) == Sum(n, f)
  {
    var g := Compose(f, s);
    SumInvolution(n, f, s);
    forall i | 0 <= i < n
      ensures h(i) == (f(i) + g(i)) / 2.0
    {
    }
    SumAverage(n, f, g, h);
  }

  /** Averaging the terms of two sums with equal totals keeps the total. */
  lemma {:induction false} SumAverage(n: nat, f: int -> real, g: int -> real, h: int -> real)
    requires forall i :: 0 <= i < n ==> h(i) == (f(i) + g(i)) / 2.0
    requires Sum(n, g) == Sum(n, f)
    ensures Sum(n, h) == Sum(n, f)
  {
    var d := i => f(i) + g(i);
    SumAdd(n, f, g, d);
    SumScale(n, 0.5, d, h);
  }
}

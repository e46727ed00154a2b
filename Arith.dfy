/** Integer and cardinality facts that the fat-tree index arithmetic relies on. */
module Arith {

  /** Multiplication by a non-negative factor is monotone. */
  lemma MulMonotone(x: int, y: int, h: int)
    requires x <= y && 0 <= h
    ensures x * h <= y * h
  {
    assert y * h - x * h == (y - x) * h;
  }

  /** One more copy of x adds x. */
  lemma MulAddOne(d: int, x: int)
    ensures d * (x + 1) == d * x + d
  {
  }

  /** Quotient and remainder rebuild the dividend. */
  lemma DivMod(a: int, h: int)
    requires 0 < h
    ensures a == (a / h) * h + a % h && 0 <= a % h < h
  {
  }

  /** Euclidean division is determined by quotient and remainder:
      a == q * h + r with 0 <= r < h forces a / h == q and a % h == r. */
  lemma DivModUnique(a: int, h: int, q: int, r: int)
    requires 0 < h && 0 <= r < h && a == q * h + r
    ensures a / h == q && a % h == r
  {
    var q', r' := a / h, a % h;
    assert a == q' * h + r' && 0 <= r' < h;
    if q < q' {
      MulMonotone(q + 1, q', h);
      assert false;
    } else if q' < q {
      MulMonotone(q' + 1, q, h);
      assert false;
    }
  }

  /** A block of h consecutive numbers starting at q * h lies below (q + 1) * h,
      and the whole of block q lies below n * h when q < n. */
  lemma BlockBelow(q: int, j: int, h: int, n: int)
    requires 0 <= j < h && q < n
    ensures q * h + j < n * h
  {
    MulMonotone(q + 1, n, h);
  }

  /** An injective image of {0, ..., n - 1} has exactly n elements. */
  lemma {:induction false} ImageSize<T>(f: nat -> T, n: nat)
    requires forall i: nat, j: nat :: i < j < n ==> f(i) != f(j)
    ensures |set i: nat | i < n :: f(i)| == n
  {
    if n > 0 {
      ImageSize(f, n - 1);
      var smaller := set i: nat | i < n - 1 :: f(i);
      assert (set i: nat | i < n :: f(i)) == smaller + {f(n - 1)};
      assert f(n - 1) !in smaller;
    } else {
      assert (set i: nat | i < n :: f(i)) == {};
    }
  }

  /** A set that is exactly the injective image of {0, ..., n - 1} has n elements. */
  lemma ImageSetSize<T>(f: nat -> T, n: nat, s: set<T>)
    requires forall i: nat, j: nat :: i < j < n ==> f(i) != f(j)
    requires forall i: nat :: i < n ==> f(i) in s
    requires forall x :: x in s ==> exists i: nat :: i < n && f(i) == x
    ensures |s| == n
  {
    ImageSize(f, n);
    assert s == set i: nat | i < n :: f(i);
  }
}

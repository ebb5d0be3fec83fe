/** Integer arithmetic shared by the address allocators: rounding up to a multiple, powers of two and
    divisibility. */
module Arith {

  /** ceil(n / a) for a positive divisor. */
  function CeilDiv(n: int, a: int): int
    requires a > 0
  {
    (n + a - 1) / a
  }

  /** The least multiple of `a` that is at least `n`: the size of the window an `n`-byte device is given. */
  function RoundUp(n: int, a: int): (r: int)
    requires a > 0
    ensures n <= r < n + a
    ensures r % a == 0
  {
    RemainderRemoved(n, a);
    if n % a == 0 then n else n + a - n % a
  }

  lemma {:induction false} RemainderRemoved(n: int, a: int)
    requires a > 0
    ensures (n - n % a) % a == 0 && (n + a - n % a) % a == 0
  {
    DivModSplit(n, a);
    ModUnique(n - n % a, a, n / a, 0);
    ModUnique(n + a - n % a, a, n / a + 1, 0);
  }

  /** It is the product the allocators compute: alignment * ceil(n / alignment). */
  lemma {:induction false} RoundUpIsCeiling(n: int, a: int)
    requires a > 0
    ensures RoundUp(n, a) == a * CeilDiv(n, a)
  {
    var r, p := RoundUp(n, a), a * CeilDiv(n, a);
    DivModSplit(n + a - 1, a);
    ModOfMultiple(CeilDiv(n, a), a);
    MultiplesClosed(r, p, a);
    if r > p { DivisorBound(r - p, a); }
    if p > r { MultiplesClosed(p, r, a); DivisorBound(p - r, a); }
  }

  lemma {:induction false} DivModSplit(n: int, a: int)
    requires a > 0
    ensures n == a * (n / a) + n % a
    ensures 0 <= n % a < a
  {
  }

  /** `m` is determined by being a multiple plus a remainder in range. */
  lemma {:induction false} ModUnique(n: int, a: int, q: int, m: int)
    requires a > 0 && 0 <= m < a && n == a * q + m
    ensures n % a == m && n / a == q
  {
    DivModSplit(n, a);
    var k := n / a - q;
    assert a * k == m - n % a by {
      assert a * k == a * (n / a) - a * q;
    }
    if k >= 1 {
      MulMonotone(a, 1, k);
    } else if k <= -1 {
      MulMonotone(a, k, -1);
    }
  }

  lemma {:induction false} MulMonotone(a: int, x: int, y: int)
    requires a >= 0 && x <= y
    ensures a * x <= a * y
  {
  }

  lemma {:induction false} ModOfMultiple(q: int, a: int)
    requires a > 0
    ensures (a * q) % a == 0
  {
    ModUnique(a * q, a, q, 0);
  }

  /** Sums and differences of multiples of `a` are multiples of `a`. */
  lemma {:induction false} MultiplesClosed(x: int, y: int, a: int)
    requires a > 0 && x % a == 0 && y % a == 0
    ensures (x + y) % a == 0 && (x - y) % a == 0
  {
    DivModSplit(x, a);
    DivModSplit(y, a);
    assert x + y == a * (x / a + y / a);
    assert x - y == a * (x / a - y / a);
    ModOfMultiple(x / a + y / a, a);
    ModOfMultiple(x / a - y / a, a);
  }

  /** Divisibility is transitive. */
  lemma {:induction false} DividesTransitive(x: int, b: int, a: int)
    requires a > 0 && b > 0 && b % a == 0 && x % b == 0
    ensures x % a == 0
  {
    DivModSplit(b, a);
    DivModSplit(x, b);
    assert x == a * ((b / a) * (x / b)) by {
      assert x == (a * (b / a)) * (x / b);
    }
    ModOfMultiple((b / a) * (x / b), a);
  }

  lemma {:induction false} DivisorBound(x: int, a: int)
    requires a > 0 && x > 0 && x % a == 0
    ensures a <= x
  {
    DivModSplit(x, a);
    if x / a <= 0 {
      MulMonotone(a, x / a, 0);
    } else {
      MulMonotone(a, 1, x / a);
    }
  }

  /** x is the least multiple of a that reaches n. */
  ghost predicate LeastMultiple(x: int, n: int, a: int)
    requires a > 0
  {
    n <= x && x % a == 0 && forall m :: n <= m && m % a == 0 ==> x <= m
  }

  lemma {:induction false} RoundUpLeast(n: int, a: int)
    requires a > 0
    ensures LeastMultiple(RoundUp(n, a), n, a)
  {
    forall m | n <= m && m % a == 0 ensures RoundUp(n, a) <= m {
      if m < RoundUp(n, a) {
        MultiplesClosed(RoundUp(n, a), m, a);
        DivisorBound(RoundUp(n, a) - m, a);
      }
    }
  }

  function Pow2(k: nat): (p: int)
    ensures p >= 1
  {
    if k == 0 then 1 else 2 * Pow2(k - 1)
  }

  ghost predicate IsPow2(n: int) {
    exists k: nat :: n == Pow2(k)
  }

  /** Of two powers of two the smaller divides the larger. */
  lemma {:induction false} Pow2Divides(i: nat, j: nat)
    requires i <= j
    ensures Pow2(j) % Pow2(i) == 0
    ensures Pow2(i) <= Pow2(j)
    decreases j - i
  {
    if i == j {
      ModOfMultiple(1, Pow2(i));
    } else {
      Pow2Divides(i, j - 1);
      MultiplesClosed(Pow2(j - 1), Pow2(j - 1), Pow2(i));
    }
  }

  lemma {:induction false} Pow2Order(n: int, m: int)
    requires IsPow2(n) && IsPow2(m) && n <= m
    ensures n > 0 && m % n == 0
  {
    var i: nat :| n == Pow2(i);
    var j: nat :| m == Pow2(j);
    if i <= j {
      Pow2Divides(i, j);
    } else {
      Pow2Divides(j, i);
      ModOfMultiple(1, n);
    }
  }

  lemma {:induction false} OddTimesOdd(x: int, y: int)
    requires x % 2 == 1 && y % 2 == 1
    ensures (x * y) % 2 == 1
  {
    var u, v := x / 2, y / 2;
    assert x * y == (2 * u + 1) * (2 * v + 1) == 2 * (2 * u * v + u + v) + 1;
  }

  /** An even factor of 2 * p can be halved. */
  lemma {:induction false} HalveFactor(x: int, y: int, p: int)
    requires x * y == 2 * p && x % 2 == 0
    ensures (x / 2) * y == p
  {
    var h := x / 2;
    assert 2 * (h * y) == (2 * h) * y;
  }

  /** A divisor of a power of two is a power of two. */
  lemma {:induction false} DivisorOfPow2(a: int, q: int, k: nat)
    requires a > 0 && a * q == Pow2(k)
    ensures IsPow2(a)
    decreases k
  {
    if a == 1 {
      assert a == Pow2(0);
    } else if k == 0 {
      if q <= 0 { MulMonotone(a, q, 0); } else { MulMonotone(a, 1, q); }
    } else if a % 2 == 0 {
      HalveFactor(a, q, Pow2(k - 1));
      DivisorOfPow2(a / 2, q, k - 1);
      var i: nat :| a / 2 == Pow2(i);
      assert a == Pow2(i + 1);
    } else {
      if q % 2 == 1 { OddTimesOdd(a, q); }
      HalveFactor(q, a, Pow2(k - 1));
      DivisorOfPow2(a, q / 2, k - 1);
    }
  }
}

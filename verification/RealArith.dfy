/** Products and quotients of reals. */
module RealArith {

  lemma {:induction false} ScaleLe(f: real, x: real, y: real)
    requires f >= 0.0 && x <= y
    ensures f * x <= f * y
  {
    assert f * (y - x) >= 0.0;
  }

  lemma {:induction false} UnscaleLe(f: real, x: real, y: real)
    requires f > 0.0 && f * x <= f * y
    ensures x <= y
  {
    assert f * (y - x) >= 0.0;
  }

  lemma {:induction false} Undivided(a: real, f: real)
    requires f != 0.0
    ensures f * (a / f) == a
  {
  }

  lemma {:induction false} QuotientIs(f: real, x: real, a: real)
    requires f != 0.0 && a == f * x
    ensures a / f == x
  {
  }

  lemma {:induction false} ScaledQuotient(a: real, b: real, f: real)
    requires f != 0.0
    ensures a * b / f == a * (b / f)
  {
    var x := b / f;
    Undivided(b, f);
    assert a * (f * x) == f * (a * x);
    QuotientIs(f, a * x, a * b);
  }

  lemma {:induction false} QuotientBounds(a: real, e: real, low: real, high: real)
    requires e > 0.0 && e * low <= a <= e * high
    ensures low <= a / e <= high
  {
    Undivided(a, e);
    UnscaleLe(e, low, a / e);
    UnscaleLe(e, a / e, high);
  }

  lemma {:induction false} SameProduct(f: real, x: real, y: real)
    requires x == y
    ensures f * x == f * y
  {
  }

  lemma {:induction false} CastProduct(d: int, t: int)
    ensures (d * t) as real == d as real * t as real
  {
  }

  lemma {:induction false} ScaleLt(f: real, x: real, y: real)
    requires f > 0.0
    ensures f * x < f * y <==> x < y
  {
    assert f * (y - x) == f * y - f * x;
    if x < y {
      assert f * (y - x) > 0.0;
    } else {
      assert f * (x - y) >= 0.0;
    }
  }

  lemma {:induction false} SwapDivisors(a: real, b: real, c: real)
    requires b != 0.0 && c != 0.0
    ensures a / b / c == a / c / b
  {
    var x := a / c / b;
    Undivided(a, c);
    Undivided(a / c, b);
    assert c * (b * x) == b * (c * x);
    QuotientIs(b, c * x, a);
    QuotientIs(c, x, c * x);
  }

  lemma {:induction false} ProductLe(a: real, x: real, b: real, y: real)
    requires 0.0 <= a <= b && 0.0 <= x <= y
    ensures a * x <= b * y
  {
    ScaleLe(a, x, y);
    ScaleLe(y, a, b);
  }

  lemma {:induction false} QuotientBetween(a: real, e: real, low: real, high: real)
    requires e > 0.0
    ensures low < a / e < high <==> low * e < a < high * e
  {
    Undivided(a, e);
    ScaleLt(e, low, a / e);
    ScaleLt(e, a / e, high);
  }

  lemma {:induction false} DivideTwice(a: real, b: real, c: real)
    requires b > 0.0 && c > 0.0
    ensures b * c > 0.0 && a / b / c == a / (b * c)
  {
    var x := a / b / c;
    Undivided(a, b);
    Undivided(a / b, c);
    assert b * (c * x) == (b * c) * x;
    assert b * c > 0.0;
    QuotientIs(b * c, x, a);
  }

  lemma {:induction false} Positive(f: real, x: real)
    requires f > 0.0 && f * x > 0.0
    ensures x > 0.0
  {
    if x <= 0.0 {
      ScaleLe(f, x, 0.0);
    }
  }
}

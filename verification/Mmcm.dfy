/** The MMCM divider search of the adc5g yellow block, over exact real frequencies in MHz. */
module Mmcm {

  import Arith
  import RealArith
  import opened Wrappers

  /** The dictionary the search returns. */
  datatype Params = Params(fVco: real, fPfd: real, d: int, m: int, o0: int, o1: int)

  const F_PFD_MAX := 450.0
  const F_PFD_MIN := 10.0
  const F_VCO_MAX := 1200.0
  const F_VCO_MIN := 600.0

  function Ceil(x: real): (k: int)
    ensures k as real - 1.0 < x <= k as real
  {
    -((-x).Floor)
  }

  function DMin(f: real): int { Ceil(f / F_PFD_MAX) }

  function DMax(f: real): int { (f / F_PFD_MIN).Floor }

  /** The multiplier bounds are computed once, from the extreme dividers. */
  function MMin(f: real): int
    requires f != 0.0
  {
    Ceil(DMin(f) as real * F_VCO_MIN / f)
  }

  function MMax(f: real): int
    requires f != 0.0
  {
    (DMax(f) as real * F_VCO_MAX / f).Floor
  }

  /** Membership of a real in range(1, 128). */
  predicate AllowedOutput(x: real) {
    x == x.Floor as real && 1 <= x.Floor < 128
  }

  /** The four continue-guards. */
  predicate Accepts(d: int, m: int, o0: real, o1: real) {
    1 <= d < 107 && 2 <= m < 65 && AllowedOutput(o0) && AllowedOutput(o1)
  }

  /** What passing comes down to (AcceptsIff): the frequency cancels and m is a whole multiple of d. */
  ghost predicate Passes(d: int, m: int) {
    1 <= d < 107 && 2 <= m < 65 && m % d == 0 && m / d <= 63
  }

  /** The ranges the search walks through. */
  datatype Box = Box(dMin: int, dMax: int, mMin: int, mMax: int) {
    ghost predicate Has(d: int, m: int) {
      dMin <= d <= dMax && mMin <= m <= mMax
    }
  }

  function BoxFor(f: real): Box
    requires f != 0.0
  {
    Box(DMin(f), DMax(f), MMin(f), MMax(f))
  }

  /** (d, m) passes, and nothing the search tries before it does. */
  ghost predicate First(b: Box, d: int, m: int) {
    && b.Has(d, m) && Passes(d, m)
    && (forall d', m' :: b.Has(d', m') && d' < d ==> !Passes(d', m'))
    && (forall m' :: b.Has(d, m') && m' < m ==> !Passes(d, m'))
  }

  /** p is what the search fills in for the pair (p.d, p.m). */
  ghost predicate FilledIn(f: real, p: Params) {
    p.d > 0 && p == Filled(f, p.d, p.m / p.d)
  }

  /** The dictionary for an output divider t and a multiplier d * t. */
  function Filled(f: real, d: int, t: int): Params
    requires d != 0
  {
    Params(f * t as real, f / d as real, d, d * t, t, 2 * t)
  }

  /** The outer loop over dividers. */
  method Search(f: real, b: Box) returns (r: Option<Params>)
    requires f != 0.0 && (b.dMin <= b.dMax ==> b.dMin > 0)
    ensures r.None? ==> forall d, m :: b.Has(d, m) ==> !Passes(d, m)
    ensures r.Some? ==> First(b, r.value.d, r.value.m) && FilledIn(f, r.value)
  {
    var d := b.dMin;
    while d <= b.dMax
      invariant b.dMin <= d
      invariant forall d', m' :: b.Has(d', m') && d' < d ==> !Passes(d', m')
    {
      r := SearchMultiplier(f, d, b.mMin, b.mMax);
      if r.Some? {
        return;
      }
      d := d + 1;
    }
    r := None;
  }

  /** The inner loop over multipliers, for one divider. */
  method SearchMultiplier(f: real, d: int, mMin: int, mMax: int) returns (r: Option<Params>)
    requires f != 0.0 && d > 0
    ensures r.None? ==> forall m :: mMin <= m <= mMax ==> !Passes(d, m)
    ensures r.Some? ==> mMin <= r.value.m <= mMax && Passes(d, r.value.m)
    ensures r.Some? ==> forall m :: mMin <= m < r.value.m ==> !Passes(d, m)
    ensures r.Some? ==> r.value.d == d && FilledIn(f, r.value)
  {
    var m := mMin;
    while m <= mMax
      invariant mMin <= m
      invariant forall m' :: mMin <= m' < m ==> !Passes(d, m')
    {
      r := Try(f, d, m);
      if r.Some? {
        return;
      }
      m := m + 1;
    }
    r := None;
  }

  /** One candidate: the output dividers it would need for the bit clock f and the user clock of half that rate. */
  method Try(f: real, d: int, m: int) returns (r: Option<Params>)
    requires f != 0.0 && d > 0
    ensures r.Some? <==> Passes(d, m)
    ensures r.Some? ==> r.value.d == d && r.value.m == m && FilledIn(f, r.value)
  {
    var fPfd := f / d as real;
    var fVco := fPfd * m as real;
    var o0 := fVco / f;
    var o1 := fVco / (f / 2.0);
    TryMeans(f, d, m, fVco, o0, o1);
    if !Accepts(d, m, o0, o1) {
      return None;
    }
    r := Some(Params(fVco, fPfd, d, m, o0.Floor, o1.Floor));
  }

  // ---------------------------------------------------------------------------------------------------------
  // What is accepted
  // ---------------------------------------------------------------------------------------------------------

  /** The bit clock cancels out of both output dividers. */
  lemma {:induction false} Cancel(f: real, d: int, m: int)
    requires f != 0.0 && d > 0
    ensures f / d as real * m as real / f == m as real / d as real
    ensures f / d as real * m as real / (f / 2.0) == 2.0 * (m as real / d as real)
    ensures f / d as real * m as real == f * (m as real / d as real)
  {
    var y, n, e := f / d as real, m as real, d as real;
    var x := n / e;
    RealArith.Undivided(f, e);
    RealArith.Undivided(n, e);
    assert y * (e * x) == (e * y) * x;
    assert y * n == f * x;
    RealArith.QuotientIs(f, x, y * n);
    assert f * x == (f / 2.0) * (2.0 * x);
    RealArith.QuotientIs(f / 2.0, 2.0 * x, y * n);
  }

  lemma {:induction false} WholeQuotient(m: int, d: int, t: int)
    requires d > 0
    ensures m as real / d as real == t as real <==> m == d * t
  {
    RealArith.Undivided(m as real, d as real);
    RealArith.CastProduct(d, t);
    if m == d * t {
      RealArith.QuotientIs(d as real, t as real, m as real);
    }
  }

  lemma {:induction false} WholeIff(x: real, t: int)
    requires x == t as real
    ensures AllowedOutput(x) <==> 1 <= t < 128
    ensures AllowedOutput(2.0 * x) <==> 1 <= 2 * t < 128
  {
    assert 2.0 * x == (2 * t) as real;
  }

  /** Both output dividers are allowed exactly for a whole multiple up to 63. */
  lemma {:induction false} OutputsIff(d: int, m: int)
    requires d > 0 && m > 0
    ensures var x := m as real / d as real;
            AllowedOutput(x) && AllowedOutput(2.0 * x) <==> m % d == 0 && m / d <= 63
  {
    var x := m as real / d as real;
    WholeQuotient(m, d, m / d);
    WholeQuotient(m, d, x.Floor);
    if m % d == 0 {
      WholeIff(x, m / d);
      FactorPositive(d, m / d);
    } else if AllowedOutput(x) {
      MultipleMod(d, x.Floor);
    }
  }

  lemma {:induction false} FactorPositive(d: int, t: int)
    requires d > 0 && d * t > 0
    ensures t >= 1
  {
  }

  lemma {:induction false} MultipleMod(d: int, t: int)
    requires d > 0
    ensures (d * t) % d == 0 && (d * t) / d == t
  {
    Arith.ModUnique(d * t, d, t, 0);
  }

  /** The guards, read as integers: the bit clock does not matter. */
  lemma {:induction false} AcceptsIff(d: int, m: int, x: real)
    requires d > 0 && x == m as real / d as real
    ensures Accepts(d, m, x, 2.0 * x) <==> Passes(d, m)
  {
    if m > 0 {
      OutputsIff(d, m);
    }
  }

  lemma {:induction false} TryMeans(f: real, d: int, m: int, fVco: real, o0: real, o1: real)
    requires f != 0.0 && d > 0
    requires fVco == f / d as real * m as real && o0 == fVco / f && o1 == fVco / (f / 2.0)
    ensures Accepts(d, m, o0, o1) <==> Passes(d, m)
    ensures Passes(d, m) ==>
              Params(fVco, f / d as real, d, m, o0.Floor, o1.Floor) == Filled(f, d, m / d)
  {
    var x := m as real / d as real;
    Cancel(f, d, m);
    assert fVco == f * x && o0 == x && o1 == 2.0 * x;
    AcceptsIff(d, m, x);
    if Passes(d, m) {
      OutputsWhole(d, m, x);
      RealArith.SameProduct(f, x, (m / d) as real);
    }
  }

  lemma {:induction false} OutputsWhole(d: int, m: int, x: real)
    requires Passes(d, m) && x == m as real / d as real
    ensures m == d * (m / d) && x == (m / d) as real && x.Floor == m / d && (2.0 * x).Floor == 2 * (m / d)
  {
    Arith.DivModSplit(m, d);
    WholeQuotient(m, d, m / d);
    assert 2.0 * x == (2 * (m / d)) as real;
  }

  // ---------------------------------------------------------------------------------------------------------
  // Where the search lands
  // ---------------------------------------------------------------------------------------------------------

  /** Ceil(600 / f), the least output divider that reaches the lowest VCO frequency. */
  function Lift(f: real): int
    requires f > 0.0
  {
    Ceil(F_VCO_MIN / f)
  }

  /** The box, with the multiplier bounds written in terms of q = 600 / f. */
  ghost predicate Bounds(f: real, q: real, b: Box) {
    && f <= 450.0 * b.dMin as real < f + 450.0
    && 10.0 * b.dMax as real <= f < 10.0 * b.dMax as real + 10.0
    && b.mMin == Ceil(b.dMin as real * q)
    && b.mMax == (b.dMax as real * (2.0 * q)).Floor
  }

  lemma {:induction false} BoundsHold(f: real, q: real)
    requires f > 0.0 && q == F_VCO_MIN / f
    ensures Bounds(f, q, BoxFor(f))
  {
    DividerBounds(f);
    LowestMultiplier(f, DMin(f) as real, q);
    HighestMultiplier(f, DMax(f) as real, q);
  }

  lemma {:induction false} DividerBounds(f: real)
    ensures f <= 450.0 * DMin(f) as real < f + 450.0
    ensures 10.0 * DMax(f) as real <= f < 10.0 * DMax(f) as real + 10.0
  {
  }

  lemma {:induction false} LowestMultiplier(f: real, d: real, q: real)
    requires f > 0.0 && q == F_VCO_MIN / f
    ensures d * F_VCO_MIN / f == d * q
  {
    RealArith.ScaledQuotient(d, F_VCO_MIN, f);
  }

  lemma {:induction false} HighestMultiplier(f: real, d: real, q: real)
    requires f > 0.0 && q == F_VCO_MIN / f
    ensures d * F_VCO_MAX / f == d * (2.0 * q)
  {
    RealArith.ScaledQuotient(d, F_VCO_MAX, f);
    RealArith.ScaledQuotient(2.0, F_VCO_MIN, f);
    assert F_VCO_MAX / f == 2.0 * q;
  }

  /** How large 600 / f is. */
  lemma {:induction false} RatioRange(f: real, q: real)
    requires 10.0 <= f <= 28800.0 && f * q == 600.0
    ensures f <= 450.0 ==> 4.0 / 3.0 <= q <= 60.0
    ensures 450.0 < f < 600.0 ==> 1.0 < q < 4.0 / 3.0
    ensures f >= 600.0 ==> 0.0 < q <= 1.0
  {
    if f <= 450.0 {
      RealArith.UnscaleLe(f, 4.0 / 3.0, q);
      RealArith.UnscaleLe(f, q, 60.0);
    } else {
      RealArith.UnscaleLe(f, q, 4.0 / 3.0);
      if f < 600.0 {
        RealArith.UnscaleLe(f, 1.0, q);
      } else {
        RealArith.UnscaleLe(f, 0.0, q);
        RealArith.UnscaleLe(f, q, 1.0);
      }
    }
  }

  /** The three regimes of the input frequency. */
  lemma {:induction false} Regimes(f: real, q: real, d: int)
    requires 10.0 <= f <= 28800.0 && f * q == 600.0 && f <= 450.0 * d as real < f + 450.0
    ensures f <= 450.0 ==> d == 1 && 2 <= Ceil(q) <= 60 && 1.0 < q
    ensures 450.0 < f < 600.0 ==> d == 2 && Ceil(q) == 2 && 1.0 < q
    ensures f >= 600.0 ==> 2 <= d <= 64 && Ceil(q) == 1
  {
    RatioRange(f, q);
  }

  lemma {:induction false} AboveLowerBound(d: int, q: real)
    requires d >= 0
    ensures Ceil(d as real * q) <= d * Ceil(q)
  {
    RealArith.ScaleLe(d as real, q, Ceil(q) as real);
    RealArith.CastProduct(d, Ceil(q));
  }

  /** The highest multiplier the search tries leaves room for the answer. */
  lemma {:induction false} BelowUpperBound(f: real, q: real, d: int, dMax: int)
    requires 10.0 <= f <= 28800.0 && f * q == 600.0 && f <= 450.0 * d as real < f + 450.0
    requires 10.0 * dMax as real <= f < 10.0 * dMax as real + 10.0
    ensures d * Ceil(q) <= (dMax as real * (2.0 * q)).Floor
  {
    Regimes(f, q, d);
    RatioRange(f, q);
    if f <= 450.0 {
      SlowUpperBound(q, dMax as real);
      assert d * Ceil(q) == Ceil(q);
    } else if f < 600.0 {
      MiddleUpperBound(q, dMax as real);
      assert d * Ceil(q) == 4;
    } else {
      FastUpperBound(f, q, dMax as real);
      assert d * Ceil(q) == d;
    }
  }

  lemma {:induction false} SlowUpperBound(q: real, n: real)
    requires q >= 1.0 && n >= 1.0
    ensures Ceil(q) <= (n * (2.0 * q)).Floor
  {
    RealArith.ScaleLe(2.0 * q, 1.0, n);
  }

  lemma {:induction false} MiddleUpperBound(q: real, n: real)
    requires q >= 1.0 && n >= 44.0
    ensures 4 <= (n * (2.0 * q)).Floor
  {
    RealArith.ScaleLe(2.0 * q, 44.0, n);
  }

  lemma {:induction false} FastUpperBound(f: real, q: real, n: real)
    requires f * q == 600.0 && 0.0 < q <= 1.0 && f < 10.0 * n + 10.0
    ensures 118 <= (n * (2.0 * q)).Floor
  {
    var x, y := f - 10.0, 10.0 * n;
    RealArith.ScaleLe(q, x, y);
    var low, high := q * x, q * y;
    assert low == 600.0 - 10.0 * q;
    assert high == 5.0 * (n * (2.0 * q));
  }

  /** The product of the smallest divider and the lift is inside the box, although the multiplier bounds were computed
      from two different dividers. */
  lemma {:induction false} AnswerInBox(f: real, q: real, b: Box)
    requires 10.0 <= f <= 28800.0 && f * q == 600.0 && Bounds(f, q, b)
    ensures b.Has(b.dMin, b.dMin * Ceil(q)) && Passes(b.dMin, b.dMin * Ceil(q))
  {
    Regimes(f, q, b.dMin);
    AboveLowerBound(b.dMin, q);
    BelowUpperBound(f, q, b.dMin, b.dMax);
    MultipleMod(b.dMin, Ceil(q));
  }

  /** A multiple of the divider that clears the lower bound is at least the lift. */
  lemma {:induction false} NothingEarlier(d: int, q: real, m: int, t: int)
    requires d > 0 && Ceil(d as real * q) <= m == d * t
    ensures d * Ceil(q) <= m
  {
    RealArith.CastProduct(d, t);
    RealArith.UnscaleLe(d as real, q, t as real);
    Arith.MulMonotone(d, Ceil(q), t);
  }

  /** Whatever passes anywhere needs a rate the dividers can handle. */
  lemma {:induction false} PassesInside(f: real, q: real, b: Box, d: int, m: int)
    requires f > 0.0 && Bounds(f, q, b) && b.dMin <= d <= b.dMax && Passes(d, m)
    ensures 10.0 <= f <= 28800.0
  {
    Arith.DivisorBound(m, d);
  }

  lemma {:induction false} NegativeRateHasNoDividers(f: real)
    requires f < 0.0
    ensures DMin(f) > DMax(f)
  {
    assert f / F_PFD_MAX > f / F_PFD_MIN;
  }

  lemma {:induction false} DividersPositive(f: real)
    requires f > 0.0
    ensures DMin(f) > 0
  {
    assert f / F_PFD_MAX > 0.0;
  }

  lemma {:induction false} FirstAtSmallest(f: real, q: real, b: Box, d: int, m: int)
    requires f > 0.0 && f * q == 600.0 && Bounds(f, q, b) && First(b, d, m)
    ensures 10.0 <= f <= 28800.0 && d == b.dMin && m <= d * Ceil(q)
  {
    PassesInside(f, q, b, d, m);
    AnswerInBox(f, q, b);
    NotAfter(b, d, m, b.dMin, b.dMin * Ceil(q));
  }

  lemma {:induction false} FirstIsAnswer(f: real, q: real, b: Box, d: int, m: int)
    requires f > 0.0 && f * q == 600.0 && Bounds(f, q, b) && First(b, d, m)
    ensures 10.0 <= f <= 28800.0 && d == b.dMin && d > 0 && m == d * Ceil(q)
  {
    FirstAtSmallest(f, q, b, d, m);
    assert d > 0 && Ceil(d as real * q) <= m;
    var t := m / d;
    Arith.DivModSplit(m, d);
    NothingEarlier(d, q, m, t);
  }

  /** The first to pass does not come after anything else that passes. */
  lemma {:induction false} NotAfter(b: Box, d: int, m: int, d': int, m': int)
    requires First(b, d, m) && b.Has(d', m') && Passes(d', m')
    ensures d <= d' && (d == d' ==> m <= m')
  {
  }

  // ---------------------------------------------------------------------------------------------------------
  // Main result
  // ---------------------------------------------------------------------------------------------------------

  /** The phase detector stays inside its limits. */
  lemma {:induction false} AnswerPfd(f: real, q: real, d: int)
    requires 10.0 <= f <= 28800.0 && f * q == 600.0 && f <= 450.0 * d as real < f + 450.0
    ensures d >= 1 && 10.0 <= f / d as real <= 450.0
  {
    Regimes(f, q, d);
    RealArith.QuotientBounds(f, d as real, 10.0, 450.0);
  }

  /** The oscillator reaches its lower limit, and exceeds its upper one exactly when the input does. */
  lemma {:induction false} AnswerVco(f: real, q: real)
    requires 10.0 <= f <= 28800.0 && f * q == 600.0
    ensures f * Ceil(q) as real >= 600.0
    ensures f * Ceil(q) as real <= 1200.0 <==> f <= 1200.0
  {
    RatioRange(f, q);
    RealArith.ScaleLe(f, q, Ceil(q) as real);
    if f < 600.0 {
      VcoBelow(f, q, Ceil(q) as real);
    } else {
      RealArith.SameProduct(f, Ceil(q) as real, 1.0);
    }
  }

  lemma {:induction false} VcoBelow(f: real, q: real, k: real)
    requires 0.0 < f < 600.0 && f * q == 600.0 && k <= q + 1.0
    ensures f * k <= 1200.0
  {
    RealArith.ScaleLe(f, k, q + 1.0);
    assert f * (q + 1.0) == 600.0 + f;
  }

  /** The least divider that brings the phase detector down to 450 MHz and the least multiple of it that lifts the oscillator
      to 600 MHz; the outputs divide the oscillator down to the bit clock and to half of it. */
  ghost predicate Solves(f: real, p: Params) {
    && p.d >= 1 && f <= 450.0 * p.d as real < f + 450.0
    && p.o0 >= 1 && 600.0 <= f * p.o0 as real < 600.0 + f
    && p.m == p.d * p.o0 && p.o1 == 2 * p.o0
    && p.fPfd * p.d as real == f && p.fVco == f * p.o0 as real
  }

  lemma {:induction false} LiftReaches(f: real, q: real, k: int)
    requires f > 0.0 && f * q == 600.0 && q <= k as real
    ensures k >= 1 && 600.0 <= f * k as real
  {
    RealArith.ScaleLe(f, q, k as real);
    RealArith.Positive(f, q);
  }

  lemma {:induction false} LiftLeast(f: real, q: real, k: int)
    requires f > 0.0 && f * q == 600.0 && k as real - 1.0 < q
    ensures f * k as real < 600.0 + f
  {
    RealArith.ScaleLt(f, k as real, q + 1.0);
    assert f * (q + 1.0) == f * q + f;
  }

  lemma {:induction false} FilledSolves(f: real)
    requires f > 0.0
    ensures DMin(f) > 0 && Solves(f, Filled(f, DMin(f), Lift(f)))
  {
    var q := F_VCO_MIN / f;
    DividersPositive(f);
    DividerBounds(f);
    RealArith.Undivided(F_VCO_MIN, f);
    LiftReaches(f, q, Ceil(q));
    LiftLeast(f, q, Ceil(q));
    SolvesFor(f, DMin(f), Ceil(q));
  }

  lemma {:induction false} SolvesFor(f: real, d: int, k: int)
    requires d >= 1 && f <= 450.0 * d as real < f + 450.0
    requires k >= 1 && 600.0 <= f * k as real < 600.0 + f
    ensures Solves(f, Filled(f, d, k))
  {
    RealArith.Undivided(f, d as real);
  }

  lemma {:induction false} SameLift(f: real, k: int, n: int)
    requires f > 0.0 && 600.0 <= f * n as real && f * k as real < 600.0 + f
    ensures k <= n
  {
    var low, high := f * n as real, f * k as real;
    assert f * (n as real + 1.0) == low + f;
    RealArith.ScaleLt(f, k as real, n as real + 1.0);
  }

  lemma {:induction false} SameDivider(f: real, d: int, e: int)
    requires 450.0 * d as real < f + 450.0 && f <= 450.0 * e as real
    ensures d <= e
  {
  }

  lemma {:induction false} SameDividers(f: real, p: Params, q: Params)
    requires f > 0.0 && Solves(f, p) && Solves(f, q)
    ensures p.d == q.d && p.o0 == q.o0
  {
    SameLift(f, p.o0, q.o0);
    SameLift(f, q.o0, p.o0);
    SameDivider(f, p.d, q.d);
    SameDivider(f, q.d, p.d);
  }

  /** There is only one solution. */
  lemma {:induction false} SolvesUnique(f: real, p: Params, q: Params)
    requires f > 0.0 && Solves(f, p) && Solves(f, q)
    ensures p == q
  {
    SameDividers(f, p, q);
    SameFactor(p.d as real, p.fPfd, q.fPfd);
  }

  lemma {:induction false} SameFactor(d: real, x: real, y: real)
    requires d > 0.0 && x * d == y * d
    ensures x == y
  {
    if x < y { RealArith.ScaleLt(d, x, y); }
    if y < x { RealArith.ScaleLt(d, y, x); }
  }

  /** The search succeeds exactly for bit clocks from 10 to 28800 MHz, and always lands on the smallest divider and the
      least multiple of it that reaches the VCO floor. A zero rate has already failed in the block's period
      computation. */
  method GetMmcmParams(f: real) returns (r: Option<Params>)
    requires f != 0.0
    ensures r.Some? <==> 10.0 <= f <= 28800.0
    ensures r.Some? ==> Solves(f, r.value)
  {
    if f < 0.0 {
      NegativeRateHasNoDividers(f);
    } else {
      DividersPositive(f);
    }
    var b := BoxFor(f);
    r := Search(f, b);
    if f > 0.0 {
      BoundsHold(f, F_VCO_MIN / f);
      if r.Some? {
        FoundIsClosedForm(f, F_VCO_MIN / f, b, r.value.d, r.value.m);
        MultipleMod(DMin(f), Lift(f));
        FilledSolves(f);
      } else {
        NothingFound(f, F_VCO_MIN / f, b);
      }
    }
  }

  /** The dictionary meets the phase-detector and VCO limits exactly up to 1200 MHz: the VCO ceiling is not checked for
      the candidate itself. */
  lemma {:induction false} LegalIff(f: real, p: Params)
    requires 10.0 <= f <= 28800.0 && Solves(f, p)
    ensures 10.0 <= p.fPfd <= 450.0 && 600.0 <= p.fVco && (p.fVco <= 1200.0 <==> f <= 1200.0)
  {
    FilledSolves(f);
    SolvesUnique(f, p, Filled(f, DMin(f), Lift(f)));
    var q := F_VCO_MIN / f;
    RealArith.Undivided(F_VCO_MIN, f);
    AnswerPfd(f, q, DMin(f));
    AnswerVco(f, q);
  }

  lemma {:induction false} FoundIsClosedForm(f: real, q: real, b: Box, d: int, m: int)
    requires f > 0.0 && q == F_VCO_MIN / f && Bounds(f, q, b) && First(b, d, m)
    ensures 10.0 <= f <= 28800.0 && d == b.dMin && d > 0 && m == d * Ceil(q)
  {
    RealArith.Undivided(F_VCO_MIN, f);
    FirstIsAnswer(f, q, b, d, m);
  }

  lemma {:induction false} NothingFound(f: real, q: real, b: Box)
    requires f > 0.0 && q == F_VCO_MIN / f && Bounds(f, q, b) && forall d, m :: b.Has(d, m) ==> !Passes(d, m)
    ensures f < 10.0 || f > 28800.0
  {
    if 10.0 <= f <= 28800.0 {
      RealArith.Undivided(F_VCO_MIN, f);
      AnswerInBox(f, q, b);
    }
  }

  /** A rate the search accepts although its VCO frequency is out of range. */
  lemma {:induction false} VcoNotRechecked()
    ensures var f := 1300.0;
            First(BoxFor(f), 3, 3) && Filled(f, 3, 1).fVco > F_VCO_MAX
  {
    var f := 1300.0;
    assert DMin(f) == 3 && Lift(f) == 1 && MMin(f) == 2 && MMax(f) >= 3;
  }
}

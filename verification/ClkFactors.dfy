/** The exhaustive search for the clock ratio closest to a target, over exact real frequencies in MHz. */
module ClkFactors {

  import RealArith
  import opened Wrappers

  datatype Factors = Factors(m: int, d: int, dd: int, periodNs: real, periodHalfNs: real)

  /** The running best of the loops. */
  datatype Best = Best(m: int, d: int, dd: int, diff: real)

  const MAX_DIFF := 1000.0

  /** A fast input clock excludes the four smallest dividers. */
  function LowestDD(f: real): (low: int)
  {
    if f >= 315.0 then 5 else 1
  }

  predicate InWindow(f: real, i: int, k: int)
    requires k > 0
  {
    f * i as real / k as real < 1150.0 && f * i as real / k as real > 650.0
  }

  function Abs(x: real): real {
    if x < 0.0 then -x else x
  }

  function Error(f: real, target: real, i: int, j: int, k: int): real
    requires j > 0 && k > 0
  {
    Abs(f * i as real / j as real / k as real - target)
  }

  /** (i, j, k) is one of the triples visited, and its oscillator frequency is inside the window. */
  ghost predicate Eligible(f: real, i: int, j: int, k: int) {
    && 8 <= i <= 64 && i % 2 == 0
    && 2 <= j <= 127
    && LowestDD(f) <= k <= 80
    && InWindow(f, i, k)
  }

  /** The order of the loops. */
  ghost predicate Before(i: int, j: int, k: int, i': int, j': int, k': int) {
    i < i' || (i == i' && (j < j' || (j == j' && k < k')))
  }

  /** b is what the loops hold when they stand before (i, j, k): the first of the closest triples visited so far, or
      the initial values when none came closer than 1000. */
  ghost predicate BestSoFar(f: real, target: real, b: Best, i: int, j: int, k: int) {
    && b.diff <= MAX_DIFF
    && (b.diff == MAX_DIFF ==> b.m == b.d == b.dd == 1)
    && (b.diff < MAX_DIFF ==> Eligible(f, b.m, b.d, b.dd) && b.diff == Error(f, target, b.m, b.d, b.dd))
    && (b.diff < MAX_DIFF ==> Before(b.m, b.d, b.dd, i, j, k))
    && (forall i', j', k' {:trigger Eligible(f, i', j', k')} ::
          Eligible(f, i', j', k') && Before(i', j', k', i, j, k) ==> b.diff <= Error(f, target, i', j', k'))
    && (forall i', j', k' {:trigger Eligible(f, i', j', k')} ::
          Eligible(f, i', j', k') && b.diff < MAX_DIFF && Before(i', j', k', b.m, b.d, b.dd) ==>
            b.diff < Error(f, target, i', j', k'))
  }

  /** The loop body. */
  method Visit(f: real, target: real, b: Best, i: int, j: int, k: int) returns (r: Best)
    requires 8 <= i <= 64 && i % 2 == 0 && 2 <= j <= 127 && LowestDD(f) <= k <= 80
    requires BestSoFar(f, target, b, i, j, k)
    ensures BestSoFar(f, target, r, i, j, k + 1)
  {
    r := b;
    if InWindow(f, i, k) {
      var diff := Error(f, target, i, j, k);
      if diff < b.diff {
        r := Best(i, j, k, diff);
      }
    }
  }

  /** The cursor may move over triples that are not visited. */
  lemma {:induction false} Skip(f: real, target: real, b: Best, i: int, j: int, k: int, i': int, j': int, k': int)
    requires BestSoFar(f, target, b, i, j, k)
    requires b.diff < MAX_DIFF ==> Before(b.m, b.d, b.dd, i', j', k')
    requires forall x, y, z :: Eligible(f, x, y, z) && Before(x, y, z, i', j', k') ==> Before(x, y, z, i, j, k)
    ensures BestSoFar(f, target, b, i', j', k')
  {
  }

  method VisitDD(f: real, target: real, b: Best, i: int, j: int) returns (r: Best)
    requires 8 <= i <= 64 && i % 2 == 0 && 2 <= j <= 127
    requires BestSoFar(f, target, b, i, j, LowestDD(f))
    ensures BestSoFar(f, target, r, i, j + 1, LowestDD(f))
  {
    r := b;
    var k := LowestDD(f);
    while k < 81
      invariant LowestDD(f) <= k <= 81
      invariant BestSoFar(f, target, r, i, j, k)
    {
      r := Visit(f, target, r, i, j, k);
      k := k + 1;
    }
    Skip(f, target, r, i, j, 81, i, j + 1, LowestDD(f));
  }

  lemma {:induction false} NextBlock(f: real, target: real, b: Best, i: int)
    requires i % 2 == 0 && BestSoFar(f, target, b, i, 128, LowestDD(f))
    ensures BestSoFar(f, target, b, i + 2, 2, LowestDD(f))
  {
    forall x, y, z | Eligible(f, x, y, z) && Before(x, y, z, i + 2, 2, LowestDD(f))
      ensures Before(x, y, z, i, 128, LowestDD(f))
    {
      assert x != i + 1;
    }
    Skip(f, target, b, i, 128, LowestDD(f), i + 2, 2, LowestDD(f));
  }

  method VisitD(f: real, target: real, b: Best, i: int) returns (r: Best)
    requires 8 <= i <= 64 && i % 2 == 0
    requires BestSoFar(f, target, b, i, 2, LowestDD(f))
    ensures BestSoFar(f, target, r, i + 2, 2, LowestDD(f))
  {
    r := b;
    var j := 2;
    while j < 128
      invariant 2 <= j <= 128
      invariant BestSoFar(f, target, r, i, j, LowestDD(f))
    {
      r := VisitDD(f, target, r, i, j);
      j := j + 1;
    }
    NextBlock(f, target, r, i);
  }

  /** (i, j, k) is the first, in loop order, of the triples closest to the target. */
  ghost predicate FirstClosest(f: real, target: real, i: int, j: int, k: int) {
    && Eligible(f, i, j, k)
    && (forall i', j', k' {:trigger Eligible(f, i', j', k')} :: Eligible(f, i', j', k') ==>
          Error(f, target, i, j, k) <= Error(f, target, i', j', k'))
    && (forall i', j', k' {:trigger Eligible(f, i', j', k')} :: Eligible(f, i', j', k') && Before(i', j', k', i, j, k) ==>
          Error(f, target, i, j, k) < Error(f, target, i', j', k'))
  }

  /** Some triple in the window comes closer than the initial 1000 MHz. */
  ghost predicate Reachable(f: real, target: real) {
    exists i, j, k :: Eligible(f, i, j, k) && Error(f, target, i, j, k) < MAX_DIFF
  }

  /** The triple loop. */
  method Search(f: real, target: real) returns (b: Best)
    ensures b.m > 0 && b.d > 0 && b.dd > 0
    ensures Reachable(f, target) ==> FirstClosest(f, target, b.m, b.d, b.dd)
    ensures !Reachable(f, target) ==> b.m == b.d == b.dd == 1
  {
    b := Best(1, 1, 1, MAX_DIFF);
    var i := 8;
    while i < 65
      invariant 8 <= i <= 66 && i % 2 == 0
      invariant BestSoFar(f, target, b, i, 2, LowestDD(f))
    {
      b := VisitD(f, target, b, i);
      i := i + 2;
    }
    BestIsAnswer(f, target, b, i);
  }

  // ---------------------------------------------------------------------------------------------------------
  // What the answer is good for
  // ---------------------------------------------------------------------------------------------------------

  /** The frequency a triple of multiplier and dividers makes of f. */
  ghost function Frequency(f: real, m: int, d: int, dd: int): real
    requires d > 0 && dd > 0
  {
    f * m as real / (d as real * dd as real)
  }

  /** The triples on offer: even multipliers from 8 to 64, dividers from 2 to 127 and up to 80, the latter from 5 on for a
      fast input clock, and an oscillator strictly between 650 and 1150 MHz. */
  ghost predicate Allowed(f: real, m: int, d: int, dd: int) {
    && 8 <= m <= 64 && m % 2 == 0 && 2 <= d <= 127
    && 1 <= dd <= 80 && (f >= 315.0 ==> dd >= 5)
    && 650.0 * dd as real < f * m as real < 1150.0 * dd as real
  }

  /** a is nearer to the target than b: strictly between b and its mirror image. */
  ghost predicate Nearer(a: real, b: real, target: real) {
    b < a < 2.0 * target - b || 2.0 * target - b < a < b
  }

  /** Some triple on offer comes within 1000 MHz of the target. */
  ghost predicate WithinReach(f: real, target: real) {
    exists m, d, dd :: Allowed(f, m, d, dd) && target - 1000.0 < Frequency(f, m, d, dd) < target + 1000.0
  }

  /** No triple on offer comes nearer to the target than the answer; without one within 1000 MHz all factors are 1. */
  ghost predicate NoneNearer(f: real, target: real, r: Factors)
    requires r.d > 0 && r.dd > 0
  {
    if WithinReach(f, target) then
      && Allowed(f, r.m, r.d, r.dd)
      && forall m, d, dd :: Allowed(f, m, d, dd) ==>
           !Nearer(Frequency(f, m, d, dd), Frequency(f, r.m, r.d, r.dd), target)
    else r.m == r.d == r.dd == 1
  }

  ghost predicate CanHit(f: real, target: real) {
    exists m, d, dd :: Allowed(f, m, d, dd) && Frequency(f, m, d, dd) == target
  }

  /** An exact hit is found if there is one, and the period is that of the answer's frequency. */
  ghost predicate Hits(f: real, target: real, r: Factors)
    requires r.d > 0 && r.dd > 0
  {
    var v := Frequency(f, r.m, r.d, r.dd);
    && r.periodNs * v == 1000.0 && 2.0 * r.periodHalfNs == r.periodNs
    && (CanHit(f, target) ==> v == target && r.periodNs * target == 1000.0)
  }

  ghost predicate Approaches(f: real, target: real, r: Factors) {
    r.d > 0 && r.dd > 0 && NoneNearer(f, target, r) && Hits(f, target, r)
  }

  lemma {:induction false} FrequencyIs(f: real, m: int, d: int, dd: int)
    requires d > 0 && dd > 0
    ensures f * m as real / d as real / dd as real == Frequency(f, m, d, dd)
  {
    RealArith.DivideTwice(f * m as real, d as real, dd as real);
  }

  lemma {:induction false} AllowedIff(f: real, m: int, d: int, dd: int)
    ensures Eligible(f, m, d, dd) <==> Allowed(f, m, d, dd)
  {
    if dd > 0 {
      WindowMeans(f, m, dd);
    }
  }

  lemma {:induction false} ErrorIff(f: real, target: real, m: int, d: int, dd: int, m': int, d': int, dd': int)
    requires d > 0 && dd > 0 && d' > 0 && dd' > 0
    ensures Error(f, target, m, d, dd) < MAX_DIFF <==>
              target - 1000.0 < Frequency(f, m, d, dd) < target + 1000.0
    ensures Error(f, target, m, d, dd) < Error(f, target, m', d', dd') <==>
              Nearer(Frequency(f, m, d, dd), Frequency(f, m', d', dd'), target)
  {
    FrequencyIs(f, m, d, dd);
    FrequencyIs(f, m', d', dd');
    DistanceIff(f * m as real / d as real / dd as real, f * m' as real / d' as real / dd' as real, target);
  }

  lemma {:induction false} DistanceIff(a: real, b: real, target: real)
    ensures Abs(a - target) < Abs(b - target) <==> Nearer(a, b, target)
    ensures Abs(a - target) < MAX_DIFF <==> target - 1000.0 < a < target + 1000.0
  {
  }

  lemma {:induction false} ReachIff(f: real, target: real)
    ensures Reachable(f, target) <==> WithinReach(f, target)
  {
    if i, j, k :| Eligible(f, i, j, k) && Error(f, target, i, j, k) < MAX_DIFF {
      AllowedIff(f, i, j, k);
      ErrorIff(f, target, i, j, k, i, j, k);
    }
    if m, d, dd :| Allowed(f, m, d, dd) && target - 1000.0 < Frequency(f, m, d, dd) < target + 1000.0 {
      AllowedIff(f, m, d, dd);
      ErrorIff(f, target, m, d, dd, m, d, dd);
    }
  }

  lemma {:induction false} ClosestIsNearest(f: real, target: real, m: int, d: int, dd: int)
    requires FirstClosest(f, target, m, d, dd)
    ensures Allowed(f, m, d, dd)
    ensures forall m', d', dd' :: Allowed(f, m', d', dd') ==>
              !Nearer(Frequency(f, m', d', dd'), Frequency(f, m, d, dd), target)
  {
    AllowedIff(f, m, d, dd);
    forall m', d', dd' | Allowed(f, m', d', dd')
      ensures !Nearer(Frequency(f, m', d', dd'), Frequency(f, m, d, dd), target)
    {
      AllowedIff(f, m', d', dd');
      ErrorIff(f, target, m', d', dd', m, d, dd);
    }
  }

  /** A triple that hits the target leaves nothing nearer but a hit. */
  lemma {:induction false} HitIsFound(a: real, b: real, target: real)
    requires a == target && !Nearer(a, b, target)
    ensures b == target
  {
  }

  lemma {:induction false} AnswerHits(f: real, target: real, r: Factors)
    requires r.d > 0 && r.dd > 0 && NoneNearer(f, target, r) && PeriodOf(f, r)
    ensures Hits(f, target, r)
  {
    if CanHit(f, target) {
      HitFound(f, target, r);
    }
  }

  lemma {:induction false} HitFound(f: real, target: real, r: Factors)
    requires r.d > 0 && r.dd > 0 && NoneNearer(f, target, r) && CanHit(f, target)
    ensures Frequency(f, r.m, r.d, r.dd) == target
  {
    var m, d, dd :| Allowed(f, m, d, dd) && Frequency(f, m, d, dd) == target;
    WithinReachOf(f, target, m, d, dd);
    HitIsFound(Frequency(f, m, d, dd), Frequency(f, r.m, r.d, r.dd), target);
  }

  lemma {:induction false} WithinReachOf(f: real, target: real, m: int, d: int, dd: int)
    requires Allowed(f, m, d, dd) && Frequency(f, m, d, dd) == target
    ensures WithinReach(f, target)
  {
  }

  lemma {:induction false} AnswerNearest(f: real, target: real, r: Factors)
    requires r.d > 0 && r.dd > 0
    requires Reachable(f, target) ==> FirstClosest(f, target, r.m, r.d, r.dd)
    requires !Reachable(f, target) ==> r.m == r.d == r.dd == 1
    ensures NoneNearer(f, target, r)
  {
    ReachIff(f, target);
    if Reachable(f, target) {
      ClosestIsNearest(f, target, r.m, r.d, r.dd);
    }
  }

  /** A zero input clock ends in a division by zero. */
  method ClkFactors(f: real, target: real) returns (r: Option<Factors>)
    ensures r.None? <==> f == 0.0
    ensures r.Some? ==> Approaches(f, target, r.value)
    ensures r.Some? && Reachable(f, target) ==> FirstClosest(f, target, r.value.m, r.value.d, r.value.dd)
  {
    var b := Search(f, target);
    r := Finish(f, b);
    if r.Some? {
      AnswerNearest(f, target, r.value);
      AnswerHits(f, target, r.value);
    }
  }

  /** The period in nanoseconds belongs to the frequency of the chosen triple. */
  ghost predicate PeriodOf(f: real, r: Factors) {
    && r.d > 0 && r.dd > 0
    && r.periodNs * Frequency(f, r.m, r.d, r.dd) == 1000.0
    && 2.0 * r.periodHalfNs == r.periodNs
  }

  lemma {:induction false} PeriodMeans(period: real, closest: real)
    requires closest != 0.0 && period == 1.0 / closest * 1000.0
    ensures period * closest == 1000.0
  {
    RealArith.Undivided(1.0, closest);
  }

  /** The period of the closest frequency. */
  method Finish(f: real, b: Best) returns (r: Option<Factors>)
    requires b.m > 0 && b.d > 0 && b.dd > 0
    ensures r.None? <==> f == 0.0
    ensures r.Some? ==> r.value.m == b.m && r.value.d == b.d && r.value.dd == b.dd
    ensures r.Some? ==> PeriodOf(f, r.value)
  {
    if f == 0.0 {
      return None;
    }
    var closest := f * b.m as real / b.d as real / b.dd as real;
    NonZero(f, b.m, b.d, b.dd);
    var period := 1.0 / closest * 1000.0;
    PeriodMeans(period, closest);
    FrequencyIs(f, b.m, b.d, b.dd);
    r := Some(Factors(b.m, b.d, b.dd, period, period / 2.0));
  }

  lemma {:induction false} NonZero(f: real, m: int, d: int, dd: int)
    requires f != 0.0 && m > 0 && d > 0 && dd > 0
    ensures f * m as real / d as real / dd as real != 0.0
  {
    RealArith.Undivided(f * m as real, d as real);
    RealArith.Undivided(f * m as real / d as real, dd as real);
  }

  lemma {:induction false} BestIsAnswer(f: real, target: real, b: Best, i: int)
    requires i > 64 && BestSoFar(f, target, b, i, 2, LowestDD(f))
    ensures b.m > 0 && b.d > 0 && b.dd > 0
    ensures Reachable(f, target) ==> FirstClosest(f, target, b.m, b.d, b.dd)
    ensures !Reachable(f, target) ==> b.m == b.d == b.dd == 1
  {
    if Reachable(f, target) {
      var x, y, z :| Eligible(f, x, y, z) && Error(f, target, x, y, z) < MAX_DIFF;
      assert Before(x, y, z, i, 2, LowestDD(f));
    }
  }

  /** The contract pins the answer down. */
  lemma {:induction false} FirstClosestUnique(f: real, target: real, i: int, j: int, k: int, i': int, j': int, k': int)
    requires FirstClosest(f, target, i, j, k) && FirstClosest(f, target, i', j', k')
    ensures i == i' && j == j' && k == k'
  {
    assert !Before(i, j, k, i', j', k') && !Before(i', j', k', i, j, k);
  }

  // ---------------------------------------------------------------------------------------------------------
  // When the window can be met
  // ---------------------------------------------------------------------------------------------------------

  lemma {:induction false} WindowMeans(f: real, i: int, k: int)
    requires k > 0
    ensures InWindow(f, i, k) <==> 650.0 * k as real < f * i as real < 1150.0 * k as real
  {
    RealArith.QuotientBetween(f * i as real, k as real, 650.0, 1150.0);
  }

  /** The next divider above product / 1150 brings a large enough product into the window. */
  lemma {:induction false} DividerExists(f: real, i: int) returns (k: int)
    requires f > 0.0 && f * i as real > 1500.0
    ensures k == (f * i as real / 1150.0).Floor + 1 && k > 0 && InWindow(f, i, k)
  {
    k := (f * i as real / 1150.0).Floor + 1;
    WindowMeans(f, i, k);
  }

  lemma {:induction false} SomeEligible(f: real)
    requires 650.0 / 64.0 < f < 11500.0
    ensures exists i, k :: Eligible(f, i, 2, k)
  {
    if f < 17.5 {
      WindowMeans(f, 64, 1);
      assert Eligible(f, 64, 2, 1);
    } else if f < 23.5 {
      WindowMeans(f, 48, 1);
      assert Eligible(f, 48, 2, 1);
    } else {
      var i := if f < 315.0 then 64 else if f < 5000.0 then 16 else 8;
      var k := DividerExists(f, i);
      assert Eligible(f, i, 2, k);
    }
  }

  lemma {:induction false} EligibleRange(f: real, i: int, j: int, k: int)
    requires Eligible(f, i, j, k)
    ensures 650.0 / 64.0 < f < 11500.0
  {
    WindowMeans(f, i, k);
    RangeOf(f, i as real, k as real);
  }

  lemma {:induction false} RangeOf(f: real, x: real, y: real)
    requires 8.0 <= x <= 64.0 && 1.0 <= y <= 80.0 && 650.0 * y < f * x < 1150.0 * y
    ensures 650.0 / 64.0 < f < 11500.0
  {
    RealArith.ScaleLt(x, 0.0, f);
    assert x * 0.0 == 0.0 && x * f == f * x;
    assert f > 0.0;
    if f <= 650.0 / 64.0 {
      RealArith.ProductLe(f, x, 650.0 / 64.0, 64.0);
    }
    if f >= 11500.0 {
      RealArith.ProductLe(11500.0, 8.0, f, x);
    }
  }

  /** Some triple meets the oscillator window exactly for input clocks strictly between 650/64 and 11500 MHz. */
  lemma {:induction false} WindowIff(f: real)
    ensures (exists m, d, dd :: Allowed(f, m, d, dd)) <==> 650.0 / 64.0 < f < 11500.0
    ensures (exists i, j, k :: Eligible(f, i, j, k)) <==> 650.0 / 64.0 < f < 11500.0
  {
    if 650.0 / 64.0 < f < 11500.0 {
      SomeEligible(f);
      var i, k :| Eligible(f, i, 2, k);
      AllowedIff(f, i, 2, k);
    }
    if m, d, dd :| Allowed(f, m, d, dd) {
      AllowedIff(f, m, d, dd);
    }
    if i, j, k :| Eligible(f, i, j, k) {
      EligibleRange(f, i, j, k);
    }
  }

  /** For a target from 0 to 1000 MHz the error bound never gets in the way: the search finds a triple exactly when the
      window can be met. */
  lemma {:induction false} ReachableIff(f: real, target: real)
    requires 0.0 <= target <= 1000.0
    ensures WithinReach(f, target) <==> 650.0 / 64.0 < f < 11500.0
  {
    WindowIff(f);
    ReachIff(f, target);
    if 650.0 / 64.0 < f < 11500.0 {
      SomeEligible(f);
      var i, k :| Eligible(f, i, 2, k);
      ErrorSmall(f, target, i, 2, k);
    }
  }

  lemma {:induction false} Halved(v: real, e: real)
    requires 650.0 < v < 1150.0 && e >= 2.0
    ensures 0.0 < v / e <= 575.0
  {
    RealArith.Undivided(v, e);
    RealArith.ScaleLt(e, 0.0, v / e);
    RealArith.ScaleLt(e, 575.0, v / e);
  }

  lemma {:induction false} Deviation(a: real, x: real, y: real, target: real)
    requires x >= 2.0 && y > 0.0 && 650.0 < a / y < 1150.0 && 0.0 <= target <= 1000.0
    ensures Abs(a / x / y - target) < MAX_DIFF
  {
    RealArith.SwapDivisors(a, x, y);
    Halved(a / y, x);
  }

  lemma {:induction false} ErrorSmall(f: real, target: real, i: int, j: int, k: int)
    requires 0.0 <= target <= 1000.0 && 2 <= j && 0 < k && InWindow(f, i, k)
    ensures Error(f, target, i, j, k) < MAX_DIFF
  {
    var a, x, y := f * i as real, j as real, k as real;
    Deviation(a, x, y, target);
    assert Error(f, target, i, j, k) == Abs(a / x / y - target);
  }
}

/** The arithmetic of `axi4lite_memory_map`: sizes rounded up to powers of two, largest first, packed end to end. */
module AxiLayout {
  import opened Arith

  // ---------------------------------------------------------------------------------------------------------
  // Rounding
  // ---------------------------------------------------------------------------------------------------------

  function Doubling(n: int, p: int): (r: int)
    requires p >= 1
    ensures r >= n && r >= p
    ensures r == p || r < 2 * n
    decreases n - p
  {
    if p >= n then p else Doubling(n, 2 * p)
  }

  /** 2 ** ceil(log2(n)): the least power of two that is at least n. */
  function CeilPow2(n: int): (r: int)
    requires n >= 1
    ensures n <= r < 2 * n
  {
    Doubling(n, 1)
  }

  lemma {:induction false} DoublingIsPow2(n: int, k: nat)
    ensures IsPow2(Doubling(n, Pow2(k)))
    decreases n - Pow2(k)
  {
    if Pow2(k) < n {
      assert Pow2(k + 1) == 2 * Pow2(k);
      DoublingIsPow2(n, k + 1);
    }
  }

  /** It is a power of two, and no smaller one will do. */
  lemma {:induction false} CeilPow2Least(n: int, p: int)
    requires n >= 1
    ensures IsPow2(CeilPow2(n))
    ensures IsPow2(p) && p >= n ==> CeilPow2(n) <= p
  {
    DoublingIsPow2(n, 0);
    if IsPow2(p) && p >= n && CeilPow2(n) > p {
      Pow2Order(p, CeilPow2(n));
      NextMultiple(CeilPow2(n), p);
    }
  }

  /** A larger multiple is at least twice as large. */
  lemma {:induction false} NextMultiple(x: int, p: int)
    requires p > 0 && x > p && x % p == 0
    ensures x >= 2 * p
  {
    DivModSplit(x, p);
    if x / p <= 1 { MulMonotone(p, x / p, 1); } else { MulMonotone(p, 2, x / p); }
  }

  // ---------------------------------------------------------------------------------------------------------
  // Packing
  // ---------------------------------------------------------------------------------------------------------

  /** The relative address of interface i: what the earlier ones occupy. */
  function Address(sizes: seq<int>, i: nat, a: int): int
    requires a > 0 && i <= |sizes|
  {
    if i == 0 then 0 else Address(sizes, i - 1, a) + RoundUp(sizes[i - 1], a)
  }

  ghost predicate AllPow2(sizes: seq<int>) {
    forall i :: 0 <= i < |sizes| ==> IsPow2(sizes[i])
  }

  ghost predicate Descending(sizes: seq<int>) {
    forall i, j :: 0 <= i < j < |sizes| ==> sizes[i] >= sizes[j]
  }

  /** Interface i starts on a multiple of its own size. */
  ghost predicate NaturallyAligned(sizes: seq<int>, a: int)
    requires a > 0
  {
    forall i :: 0 <= i < |sizes| ==> sizes[i] > 0 && Address(sizes, i, a) % sizes[i] == 0
  }

  /** A power-of-two size rounded to a power-of-two alignment is the larger of the two. */
  lemma {:induction false} RoundUpPow2(s: int, a: int)
    requires IsPow2(s) && IsPow2(a)
    ensures RoundUp(s, a) == if s >= a then s else a
  {
    if s >= a {
      Pow2Order(a, s);
    } else {
      ModUnique(s, a, 0, s);
    }
  }

  /** What an earlier, larger interface occupies is a multiple of a later one's size. */
  lemma {:induction false} StepDivides(s: int, t: int, a: int)
    requires IsPow2(s) && IsPow2(t) && IsPow2(a) && s >= t
    ensures t > 0 && RoundUp(s, a) % t == 0
  {
    RoundUpPow2(s, a);
    Pow2Order(t, s);
    if s < a {
      Pow2Order(t, a);
    }
  }

  lemma {:induction false} PrefixDivides(sizes: seq<int>, i: nat, n: nat, a: int)
    requires IsPow2(a) && i <= n < |sizes| && AllPow2(sizes) && Descending(sizes)
    ensures sizes[n] > 0 && Address(sizes, i, a) % sizes[n] == 0
  {
    if i == 0 {
      Pow2Order(sizes[n], sizes[n]);
      ModOfMultiple(0, sizes[n]);
    } else {
      PrefixDivides(sizes, i - 1, n, a);
      StepDivides(sizes[i - 1], sizes[n], a);
      MultiplesClosed(Address(sizes, i - 1, a), RoundUp(sizes[i - 1], a), sizes[n]);
    }
  }

  /** Power-of-two sizes packed largest first under a power-of-two alignment are all naturally aligned. */
  lemma {:induction false} PackedNaturally(sizes: seq<int>, a: int)
    requires IsPow2(a) && AllPow2(sizes) && Descending(sizes)
    ensures NaturallyAligned(sizes, a)
  {
    forall i | 0 <= i < |sizes| ensures sizes[i] > 0 && Address(sizes, i, a) % sizes[i] == 0 {
      PrefixDivides(sizes, i, i, a);
    }
  }

  /** For an alignment that is not a power of two, two equal interfaces larger than it are already misaligned. */
  lemma {:induction false} TwoEqualSizes(a: int, k: nat)
    requires a > 0 && Pow2(k) > a && NaturallyAligned([Pow2(k), Pow2(k)], a)
    ensures IsPow2(a)
  {
    var p := Pow2(k);
    var sizes := [p, p];
    var step := RoundUp(p, a);
    assert Address(sizes, 0, a) == 0;
    assert Address(sizes, 1, a) == step;
    assert step % p == 0;
    if step > p { NextMultiple(step, p); }
    DivModSplit(p, a);
    DivisorOfPow2(a, p / a, k);
  }

  lemma {:induction false} Pow2Exceeds(a: int) returns (k: nat)
    ensures Pow2(k) > a
  {
    k := 0;
    while Pow2(k) <= a
      decreases a - Pow2(k)
    {
      k := k + 1;
    }
  }

  /** The hope in the source is exactly as good as the alignment: every rounded, ordered map is naturally aligned if
      and only if the alignment is a power of two. */
  lemma {:induction false} NaturalIffPow2(a: int)
    requires a > 0
    ensures IsPow2(a) <==> forall sizes: seq<int> :: AllPow2(sizes) && Descending(sizes) ==> NaturallyAligned(sizes, a)
  {
    if IsPow2(a) {
      forall sizes: seq<int> | AllPow2(sizes) && Descending(sizes) ensures NaturallyAligned(sizes, a) {
        PackedNaturally(sizes, a);
      }
    } else {
      var k := Pow2Exceeds(a);
      var sizes := [Pow2(k), Pow2(k)];
      assert AllPow2(sizes) && Descending(sizes);
      if NaturallyAligned(sizes, a) {
        TwoEqualSizes(a, k);
      }
    }
  }

  /** Windows follow one another without overlap, whatever the sizes. */
  lemma {:induction false} PackedApart(sizes: seq<int>, i: nat, j: nat, a: int)
    requires a > 0 && i < j <= |sizes| && forall k :: 0 <= k < |sizes| ==> sizes[k] > 0
    ensures 0 <= Address(sizes, i, a) && Address(sizes, i, a) + sizes[i] <= Address(sizes, j, a)
    decreases j
  {
    if j > i + 1 {
      PackedApart(sizes, i, j - 1, a);
    } else {
      AddressNonNegative(sizes, i, a);
    }
  }

  lemma {:induction false} AddressNonNegative(sizes: seq<int>, i: nat, a: int)
    requires a > 0 && i <= |sizes| && forall k :: 0 <= k < |sizes| ==> sizes[k] > 0
    ensures Address(sizes, i, a) >= 0
  {
    if i > 0 {
      AddressNonNegative(sizes, i - 1, a);
    }
  }

  // ---------------------------------------------------------------------------------------------------------
  // Extent
  // ---------------------------------------------------------------------------------------------------------

  function Sum(xs: seq<int>): int {
    if xs == [] then 0 else Sum(xs[..|xs| - 1]) + xs[|xs| - 1]
  }

  function Rounded(raw: seq<int>): (r: seq<int>)
    requires forall i :: 0 <= i < |raw| ==> raw[i] >= 1
    ensures |r| == |raw|
  {
    seq(|raw|, i requires 0 <= i < |raw| => CeilPow2(raw[i]))
  }

  lemma {:induction false} SumRemove(xs: seq<int>, i: nat)
    requires i < |xs|
    ensures Sum(xs) == Sum(xs[..i] + xs[i + 1..]) + xs[i]
  {
    var n := |xs| - 1;
    var rest := xs[..i] + xs[i + 1..];
    if i == n {
      assert rest == xs[..n];
    } else {
      SumRemove(xs[..n], i);
      assert rest[..n - 1] == xs[..n][..i] + xs[..n][i + 1..];
      assert rest[n - 1] == xs[n];
    }
  }

  lemma {:induction false} MembersWithout(xs: seq<int>, i: nat)
    requires i < |xs|
    ensures multiset(xs[..i] + xs[i + 1..]) == multiset(xs) - multiset{xs[i]}
  {
    assert xs == xs[..i] + [xs[i]] + xs[i + 1..];
  }

  lemma {:induction false} SumPermuted(xs: seq<int>, ys: seq<int>)
    requires multiset(xs) == multiset(ys)
    ensures Sum(xs) == Sum(ys)
    decreases |xs|
  {
    if xs == [] {
      assert |multiset(ys)| == 0;
    } else {
      var n := |xs| - 1;
      assert xs[n] in multiset(ys);
      var i :| 0 <= i < |ys| && ys[i] == xs[n];
      MembersWithout(xs, n);
      MembersWithout(ys, i);
      assert xs[..n] + xs[n + 1..] == xs[..n];
      SumPermuted(xs[..n], ys[..i] + ys[i + 1..]);
      SumRemove(ys, i);
    }
  }

  lemma {:induction false} AddressIsSum(sizes: seq<int>, i: nat, a: int)
    requires IsPow2(a) && i <= |sizes| && AllPow2(sizes) && forall k :: 0 <= k < |sizes| ==> sizes[k] >= a
    ensures a > 0 && Address(sizes, i, a) == Sum(sizes[..i])
  {
    if i > 0 {
      AddressIsSum(sizes, i - 1, a);
      RoundUpPow2(sizes[i - 1], a);
      assert sizes[..i][..i - 1] == sizes[..i - 1];
    }
  }

  lemma {:induction false} RoundedBelowDouble(raw: seq<int>)
    requires forall i :: 0 <= i < |raw| ==> raw[i] >= 1
    ensures Sum(Rounded(raw)) <= 2 * Sum(raw)
    ensures raw != [] ==> Sum(Rounded(raw)) < 2 * Sum(raw)
  {
    if raw != [] {
      var n := |raw| - 1;
      RoundedBelowDouble(raw[..n]);
      assert Rounded(raw)[..n] == Rounded(raw[..n]);
    }
  }

  /** The map is never twice as long as the interfaces it holds, if none is smaller than the alignment. */
  lemma {:induction false} ExtentBelowDouble(raw: seq<int>, sizes: seq<int>, a: int)
    requires IsPow2(a) && a > 0 && raw != [] && forall i :: 0 <= i < |raw| ==> raw[i] >= a
    requires multiset(sizes) == multiset(Rounded(raw))
    ensures Address(sizes, |sizes|, a) < 2 * Sum(raw)
  {
    forall k | 0 <= k < |sizes| ensures IsPow2(sizes[k]) && sizes[k] >= a {
      assert sizes[k] in multiset(Rounded(raw));
      var i :| 0 <= i < |raw| && Rounded(raw)[i] == sizes[k];
      CeilPow2Least(raw[i], a);
    }
    AddressIsSum(sizes, |sizes|, a);
    assert sizes[..|sizes|] == sizes;
    SumPermuted(sizes, Rounded(raw));
    RoundedBelowDouble(raw);
  }
}

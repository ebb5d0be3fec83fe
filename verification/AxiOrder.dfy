/** Rounding, ordering and addressing the interfaces, as functions of the memory map. */
module AxiOrder {
  import opened Arith
  import opened AxiLayout
  import opened AxiMap
  import opened Wrappers

  // ---------------------------------------------------------------------------------------------------------
  // Rounding and ordering
  // ---------------------------------------------------------------------------------------------------------

  ghost predicate AllSized(m: seq<Interface>) {
    forall k :: 0 <= k < |m| ==> m[k].size >= 1
  }

  function RoundEntry(e: Interface): Interface
    requires e.size >= 1
  {
    e.(size := CeilPow2(e.size))
  }

  function RoundEntries(m: seq<Interface>): (r: seq<Interface>)
    requires AllSized(m)
    ensures |r| == |m| && AllSized(r)
  {
    seq(|m|, k requires 0 <= k < |m| => RoundEntry(m[k]))
  }

  /** The first of the largest among the first n. */
  function Largest(m: seq<Interface>, n: nat): (b: nat)
    requires 0 < n <= |m|
    ensures b < n
    ensures forall k :: 0 <= k < n ==> m[k].size <= m[b].size
    ensures forall k :: 0 <= k < b ==> m[k].size < m[b].size
  {
    if n == 1 then 0
    else
      var b := Largest(m, n - 1);
      if m[n - 1].size > m[b].size then n - 1 else b
  }

  function Without(m: seq<Interface>, i: nat): (r: seq<Interface>)
    requires i < |m|
    ensures |r| == |m| - 1
  {
    m[..i] + m[i + 1..]
  }

  /** Repeatedly take out the largest. */
  function Ordered(m: seq<Interface>): (r: seq<Interface>)
    ensures |r| == |m|
    decreases |m|
  {
    if m == [] then []
    else
      var b := Largest(m, |m|);
      [m[b]] + Ordered(Without(m, b))
  }

  function Sizes(m: seq<Interface>): (s: seq<int>)
    ensures |s| == |m|
  {
    seq(|m|, k requires 0 <= k < |m| => m[k].size)
  }

  lemma {:induction false} WithoutMembers(m: seq<Interface>, i: nat)
    requires i < |m|
    ensures multiset(m) == multiset(Without(m, i)) + multiset{m[i]}
  {
    assert m == m[..i] + [m[i]] + m[i + 1..];
  }

  lemma {:induction false} WithoutIndex(m: seq<Interface>, i: nat, e: Interface) returns (q: nat)
    requires i < |m| && e in Without(m, i)
    ensures q < |m| && q != i && m[q] == e
  {
    var k :| 0 <= k < |m| - 1 && Without(m, i)[k] == e;
    q := if k < i then k else k + 1;
  }

  lemma {:induction false} WithoutKeys(m: seq<Interface>, i: nat)
    requires i < |m| && DistinctKeys(m)
    ensures DistinctKeys(Without(m, i))
    ensures forall e :: e in Without(m, i) ==> e.key != m[i].key
  {
    var w := Without(m, i);
    forall j, k | 0 <= j < k < |w| ensures w[j].key != w[k].key {
      var p, q := if j < i then j else j + 1, if k < i then k else k + 1;
      assert w[j] == m[p] && w[k] == m[q];
    }
    forall e | e in w ensures e.key != m[i].key {
      var q := WithoutIndex(m, i, e);
      if q < i { assert m[q].key != m[i].key; } else { assert m[i].key != m[q].key; }
    }
  }

  /** Ordering keeps each interface exactly once. */
  lemma {:induction false} OrderedPermutes(m: seq<Interface>)
    ensures multiset(Ordered(m)) == multiset(m)
    decreases |m|
  {
    if m != [] {
      var b := Largest(m, |m|);
      OrderedPermutes(Without(m, b));
      WithoutMembers(m, b);
    }
  }

  /** Ordering is descending in size. */
  lemma {:induction false} OrderedDescends(m: seq<Interface>)
    ensures Descending(Sizes(Ordered(m)))
    decreases |m|
  {
    if m != [] {
      var b := Largest(m, |m|);
      var w := Without(m, b);
      OrderedDescends(w);
      OrderedPermutes(w);
      forall k | 0 <= k < |Ordered(w)| ensures Ordered(w)[k].size <= m[b].size {
        assert Ordered(w)[k] in multiset(w);
        var q := WithoutIndex(m, b, Ordered(w)[k]);
      }
      PrependLargest(m[b], Ordered(w));
    }
  }

  lemma {:induction false} PrependLargest(e: Interface, rest: seq<Interface>)
    requires Descending(Sizes(rest)) && forall k :: 0 <= k < |rest| ==> rest[k].size <= e.size
    ensures Descending(Sizes([e] + rest))
  {
    assert Sizes([e] + rest) == [e.size] + Sizes(rest);
  }

  /** Ordering a dictionary gives a dictionary. */
  lemma {:induction false} OrderedKeepsKeys(m: seq<Interface>)
    requires DistinctKeys(m)
    ensures DistinctKeys(Ordered(m))
    decreases |m|
  {
    if m != [] {
      var b := Largest(m, |m|);
      var w := Without(m, b);
      WithoutKeys(m, b);
      OrderedKeepsKeys(w);
      OrderedPermutes(w);
      var o := Ordered(w);
      forall k | 0 <= k < |o| ensures o[k].key != m[b].key {
        assert o[k] in multiset(w);
      }
      FrontKey(m[b], o);
    }
  }

  lemma {:induction false} FrontKey(e: Interface, o: seq<Interface>)
    requires DistinctKeys(o) && forall k :: 0 <= k < |o| ==> o[k].key != e.key
    ensures DistinctKeys([e] + o)
  {
  }

  lemma {:induction false} SameMembers(m: seq<Interface>, e: Interface)
    ensures e in Ordered(m) <==> e in m
  {
    OrderedPermutes(m);
    assert e in multiset(Ordered(m)) <==> e in multiset(m);
  }

  lemma {:induction false} SizesWithout(m: seq<Interface>, i: nat)
    requires i < |m|
    ensures multiset(Sizes(m)) == multiset(Sizes(Without(m, i))) + multiset{m[i].size}
  {
    var s := Sizes(m);
    assert s == s[..i] + [m[i].size] + s[i + 1..];
    assert Sizes(Without(m, i)) == s[..i] + s[i + 1..];
  }

  lemma {:induction false} SizesOfPermutation(m: seq<Interface>, o: seq<Interface>)
    requires multiset(m) == multiset(o)
    ensures multiset(Sizes(m)) == multiset(Sizes(o))
    decreases |m|
  {
    if m == [] {
      assert |multiset(o)| == 0;
    } else {
      var n := |m| - 1;
      assert m[n] in multiset(o);
      var i :| 0 <= i < |o| && o[i] == m[n];
      WithoutMembers(m, n);
      WithoutMembers(o, i);
      assert multiset(Without(m, n)) == multiset(m) - multiset{m[n]};
      assert multiset(Without(o, i)) == multiset(o) - multiset{o[i]};
      SizesOfPermutation(Without(m, n), Without(o, i));
      SizesWithout(m, n);
      SizesWithout(o, i);
    }
  }

  // ---------------------------------------------------------------------------------------------------------
  // Addressing
  // ---------------------------------------------------------------------------------------------------------

  /** The offset of the last register with a name: later matches overwrite earlier ones. */
  function LastOffset(regs: seq<Register>, name: string): Option<int> {
    if regs == [] then None
    else if regs[|regs| - 1].name == name then Some(regs[|regs| - 1].offset)
    else LastOffset(regs[..|regs| - 1], name)
  }

  /** A device of the shared interface once the first registers have been matched against it. */
  function Matched(d: AxiDevice, i: nat, devices: seq<nat>, regs: seq<Register>, addr: int): AxiDevice {
    var off := LastOffset(regs, d.regname);
    if i in devices && off.Some? then d.(baseAddr := Some(addr + off.value)) else d
  }

  /** A device after one interface has been placed at addr. */
  function Touched(d: AxiDevice, i: nat, e: Interface, addr: int): AxiDevice {
    if e.key == SW_REG then Matched(d, i, e.devices, e.registers, addr)
    else if e.devices != [] && e.devices[0] == i then d.(baseAddr := Some(addr))
    else d
  }

  /** The devices after one interface has been placed at addr. */
  function Apply(ds: seq<AxiDevice>, e: Interface, addr: int): (r: seq<AxiDevice>)
    ensures |r| == |ds|
  {
    seq(|ds|, i requires 0 <= i < |ds| => Touched(ds[i], i, e, addr))
  }

  /** The devices after the first n interfaces have been placed. */
  function ApplyAll(ds: seq<AxiDevice>, m: seq<Interface>, n: nat, base: int, a: int): (r: seq<AxiDevice>)
    requires a > 0 && n <= |m|
    ensures |r| == |ds|
  {
    if n == 0 then ds
    else Apply(ApplyAll(ds, m, n - 1, base, a), m[n - 1], base + Address(Sizes(m), n - 1, a))
  }

  function WithAddresses(m: seq<Interface>, a: int): (r: seq<Interface>)
    requires a > 0
    ensures |r| == |m|
  {
    seq(|m|, k requires 0 <= k < |m| => m[k].(relative := Address(Sizes(m), k, a)))
  }

  function StrippedAll(ds: seq<AxiDevice>): (r: seq<AxiDevice>)
    ensures |r| == |ds|
  {
    seq(|ds|, i requires 0 <= i < |ds| => Stripped(ds[i]))
  }

  /** The ordered map for a list of registered devices. */
  function Order(ds: seq<AxiDevice>): seq<Interface>
    requires Registered(ds) && AllSized(Gang(ds, |ds|))
  {
    Ordered(RoundEntries(Gang(ds, |ds|)))
  }

  /** The devices once the map is complete. */
  function Addressed(ds: seq<AxiDevice>, base: int, a: int): (r: seq<AxiDevice>)
    requires a > 0 && Registered(ds) && AllSized(Gang(ds, |ds|))
    ensures |r| == |ds|
  {
    ApplyAll(StrippedAll(ds), Order(ds), |Order(ds)|, base, a)
  }

  lemma {:induction false} PopLargest(ordered: seq<Interface>, m: seq<Interface>)
    requires AllSized(m) && m != []
    ensures var b := Largest(m, |m|);
            && AllSized(Without(m, b))
            && ordered + Ordered(m) == ordered + [m[b]] + Ordered(Without(m, b))
  {
    var b := Largest(m, |m|);
    forall k | 0 <= k < |Without(m, b)| ensures Without(m, b)[k].size >= 1 {
      var q := WithoutIndex(m, b, Without(m, b)[k]);
    }
  }

  lemma {:induction false} ApplyStep(ds: seq<AxiDevice>, m: seq<Interface>, k: nat, base: int, a: int)
    requires a > 0 && k < |m|
    ensures ApplyAll(ds, m, k + 1, base, a) == Apply(ApplyAll(ds, m, k, base, a), m[k], base + Address(Sizes(m), k, a))
    ensures Address(Sizes(m), k + 1, a) == Address(Sizes(m), k, a) + a * CeilDiv(m[k].size, a)
  {
    RoundUpIsCeiling(m[k].size, a);
  }

  /** An interface refers to registered devices, at least one of them. */
  ghost predicate RefsValid(e: Interface, n: nat) {
    e.devices != [] && forall q :: 0 <= q < |e.devices| ==> e.devices[q] < n
  }

  lemma {:induction false} GangRefs(ds: seq<AxiDevice>, n: nat)
    requires n <= |ds| && Registered(ds)
    ensures forall k :: 0 <= k < |Gang(ds, n)| ==> RefsValid(Gang(ds, n)[k], |ds|)
  {
    if n > 0 {
      GangRefs(ds, n - 1);
    }
  }

  lemma {:induction false} OrderedRefs(m: seq<Interface>, n: nat)
    requires AllSized(m) && forall k :: 0 <= k < |m| ==> RefsValid(m[k], n)
    ensures forall k :: 0 <= k < |m| ==> RefsValid(Ordered(RoundEntries(m))[k], n)
  {
    var o := Ordered(RoundEntries(m));
    forall k | 0 <= k < |m| ensures RefsValid(o[k], n) {
      SameMembers(RoundEntries(m), o[k]);
      var q :| 0 <= q < |m| && RoundEntries(m)[q] == o[k];
      assert RefsValid(m[q], n);
    }
  }
}

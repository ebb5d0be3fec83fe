/** What `axi4lite_memory_map` leaves in the memory map and the devices, stated on their fields alone. */
module AxiFinished {
  import opened Arith
  import opened AxiLayout
  import opened AxiMap
  import opened AxiOrder
  import opened AxiGuarantees
  import opened Wrappers

  /** x is the least power of two that reaches n. */
  ghost predicate LeastPow2(x: int, n: int) {
    n <= x && IsPow2(x) && forall p :: IsPow2(p) && n <= p ==> x <= p
  }

  /** The first interface is at 0, and each starts at the first aligned address behind the one before. */
  ghost predicate Chained(m: seq<Interface>, a: int)
    requires a > 0
  {
    && (m != [] ==> m[0].relative == 0)
    && forall k :: 0 < k < |m| ==> LeastMultiple(m[k].relative - m[k - 1].relative, m[k - 1].size, a)
  }

  /** Some device goes by the key x, and none up to it goes by y. */
  ghost predicate KeyFirst(ds: seq<AxiDevice>, n: nat, x: string, y: string)
    requires n <= |ds|
  {
    exists i :: 0 <= i < n && Key(ds[i]) == x && forall j :: 0 <= j <= i ==> Key(ds[j]) != y
  }

  /** Larger interfaces come first, and among equal ones those whose key was registered first. */
  ghost predicate Ranked(m: seq<Interface>, ds: seq<AxiDevice>) {
    forall j, k :: 0 <= j < k < |m| ==>
      m[j].size > m[k].size || (m[j].size == m[k].size && KeyFirst(ds, |ds|, m[j].key, m[k].key))
  }

  /** Belongs into the shared interface: a software register, or anything of its name. */
  ghost predicate Shares(d: AxiDevice) {
    d.typecode == 0 || d.regname == "sw_reg"
  }

  /** A later device that is no software register has the shared interface's name. */
  ghost predicate Ousted(ds: seq<AxiDevice>, i: nat) {
    exists j :: i < j < |ds| && ds[j].typecode != 0 && ds[j].regname == "sw_reg"
  }

  /** Device i has the interface for itself. */
  ghost predicate OwnInterface(e: Interface, ds: seq<AxiDevice>, i: nat)
    requires i < |ds|
  {
    && !Shares(ds[i]) && e.key == ds[i].regname && e.devices == [i]
    && e.registers == ds[i].memoryMap && LeastPow2(e.size, ds[i].nbytes)
  }

  /** The register lists of the devices in e stand one after the other: that of the p-th device starts at starts[p], and
      its first register, unless it is the very first, is moved to offs[p], where the bytes of the devices before end. */
  ghost predicate Layout(e: Interface, ds: seq<AxiDevice>, starts: seq<nat>, offs: seq<int>) {
    var n := |e.devices|;
    && |starts| == |offs| == n + 1 && starts[0] == 0 && offs[0] == 0 && |e.registers| == starts[n]
    && Indexes(e.devices, ds)
    && forall p :: 0 <= p < n ==>
         var d := ds[e.devices[p]];
         && starts[p + 1] == starts[p] + |d.memoryMap| && offs[p + 1] == offs[p] + d.nbytes
         && ListedAt(e.registers, d, p > 0, starts[p], offs[p])
  }

  ghost predicate ListedAt(regs: seq<Register>, d: AxiDevice, moved: bool, start: nat, offset: int) {
    && start + |d.memoryMap| <= |regs|
    && forall q :: 0 <= q < |d.memoryMap| ==>
         regs[start + q] == if moved && q == 0 then d.memoryMap[0].(offset := offset) else d.memoryMap[q]
  }

  /** The shared interface: the ganged devices that no later device has displaced, in registration order. */
  ghost predicate SharedInterface(e: Interface, ds: seq<AxiDevice>) {
    && (forall i :: i in e.devices <==> 0 <= i < |ds| && Shares(ds[i]) && !Ousted(ds, i))
    && (forall j, k :: 0 <= j < k < |e.devices| ==> e.devices[j] < e.devices[k])
    && exists starts, offs :: Layout(e, ds, starts, offs) && LeastPow2(e.size, offs[|e.devices|])
  }

  ghost predicate Entry(e: Interface, ds: seq<AxiDevice>) {
    if e.key == "sw_reg" then SharedInterface(e, ds) else exists i :: 0 <= i < |ds| && OwnInterface(e, ds, i)
  }

  /** One entry for the shared interface and one for each device that is not ganged; nothing else. */
  ghost predicate Lists(m: seq<Interface>, ds: seq<AxiDevice>) {
    && DistinctKeys(m)
    && (forall k :: 0 <= k < |m| ==> Entry(m[k], ds))
    && (forall i :: 0 <= i < |ds| && (Shares(ds[i]) ==> !Ousted(ds, i)) ==>
          exists k :: 0 <= k < |m| && i in m[k].devices)
  }

  /** Register p is the last one of its name. */
  ghost predicate LastNamed(regs: seq<Register>, name: string, p: nat) {
    p < |regs| && regs[p].name == name && forall q :: p < q < |regs| ==> regs[q].name != name
  }

  /** The address interface x gives to a device: its own address, or in the shared interface that of the last register
      named like the device, if there is one. */
  ghost predicate AddressIn(x: Interface, d: AxiDevice, base: int, b: Option<int>) {
    if x.key != "sw_reg" then b == Some(base + x.relative)
    else
      && (forall p: nat :: LastNamed(x.registers, d.regname, p) ==> b == Some(base + x.relative + x.registers[p].offset))
      && (!HasName(x.registers, d.regname) ==> b == d.baseAddr)
  }

  /** Software registers, block RAMs and raw devices have lost their register lists; nothing else has changed but the
      address, which is the one the device's interface gives it, if it is in one. */
  ghost predicate Updated(d: AxiDevice, r: AxiDevice, i: nat, m: seq<Interface>, base: int) {
    && r == d.(baseAddr := r.baseAddr,
               memoryMap := if d.typecode == 0 || d.typecode == 4 || d.mode == "raw" then []
                            else d.memoryMap)
    && (forall k :: 0 <= k < |m| && i in m[k].devices ==> AddressIn(m[k], d, base, r.baseAddr))
    && ((forall k :: 0 <= k < |m| ==> i !in m[k].devices) ==> r.baseAddr == d.baseAddr)
  }

  /** The devices ds, the memory map m made of them, and the devices as they are left. */
  ghost predicate Finished(ds: seq<AxiDevice>, m: seq<Interface>, r: seq<AxiDevice>, base: int, a: int)
    requires a > 0
  {
    && Lists(m, ds) && Ranked(m, ds) && Chained(m, a)
    && |r| == |ds| && forall i :: 0 <= i < |ds| ==> Updated(ds[i], r[i], i, m, base)
  }

  // ---------------------------------------------------------------------------------------------------------
  // Relative addresses
  // ---------------------------------------------------------------------------------------------------------

  lemma {:induction false} AddressesChain(o: seq<Interface>, a: int)
    requires a > 0
    ensures Chained(WithAddresses(o, a), a)
  {
    var m := WithAddresses(o, a);
    forall k | 0 < k < |m| ensures LeastMultiple(m[k].relative - m[k - 1].relative, m[k - 1].size, a) {
      RoundUpLeast(o[k - 1].size, a);
      assert Address(Sizes(o), k, a) == Address(Sizes(o), k - 1, a) + RoundUp(Sizes(o)[k - 1], a);
    }
  }

  // ---------------------------------------------------------------------------------------------------------
  // Order
  // ---------------------------------------------------------------------------------------------------------

  /** Entry k goes under a key that device f[k] was the first to use, and the dictionary is in the order of first use. */
  ghost predicate FirstUses(m: seq<Interface>, ds: seq<AxiDevice>, n: nat, f: seq<nat>)
    requires n <= |ds|
  {
    && |f| == |m|
    && (forall k :: 0 <= k < |f| ==> f[k] < n && Key(ds[f[k]]) == m[k].key)
    && (forall k, i :: 0 <= k < |f| && 0 <= i < f[k] ==> Key(ds[i]) != m[k].key)
    && (forall j, k :: 0 <= j < k < |f| ==> f[j] < f[k])
  }

  ghost predicate KeysPresent(m: seq<Interface>, ds: seq<AxiDevice>, n: nat)
    requires n <= |ds|
  {
    forall i :: 0 <= i < n ==> Key(ds[i]) in Keys(m)
  }

  /** The next device's entry goes under its key. */
  lemma {:induction false} GangOneKeys(m: seq<Interface>, d: AxiDevice, i: nat)
    requires d.memoryMap != []
    ensures var u := GangOne(m, d, i);
            if Key(d) in Keys(m) then |u| == |m| && forall k :: 0 <= k < |m| ==> u[k].key == m[k].key
            else |u| == |m| + 1 && u[..|m|] == m && u[|m|].key == Key(d)
  {
  }

  lemma {:induction false} KeysGrow(m: seq<Interface>, u: seq<Interface>, ds: seq<AxiDevice>, n: nat)
    requires n < |ds| && KeysPresent(m, ds, n) && |m| <= |u| && forall k :: 0 <= k < |m| ==> u[k].key == m[k].key
    requires Key(ds[n]) in Keys(u)
    ensures KeysPresent(u, ds, n + 1)
  {
    forall i | 0 <= i < n ensures Key(ds[i]) in Keys(u) {
      var k :| 0 <= k < |m| && m[k].key == Key(ds[i]);
      assert u[k].key == Key(ds[i]);
    }
  }

  lemma {:induction false} OldKeyUse(m: seq<Interface>, u: seq<Interface>, ds: seq<AxiDevice>, n: nat, f: seq<nat>)
    requires n < |ds| && FirstUses(m, ds, n, f) && |u| == |m| && forall k :: 0 <= k < |m| ==> u[k].key == m[k].key
    ensures FirstUses(u, ds, n + 1, f)
  {
  }

  lemma {:induction false} NewKeyUse(m: seq<Interface>, u: seq<Interface>, ds: seq<AxiDevice>, n: nat, f: seq<nat>)
    requires n < |ds| && FirstUses(m, ds, n, f) && |u| == |m| + 1 && forall k :: 0 <= k < |m| ==> u[k] == m[k]
    requires u[|m|].key == Key(ds[n]) && forall i :: 0 <= i < n ==> Key(ds[i]) != Key(ds[n])
    ensures FirstUses(u, ds, n + 1, f + [n])
  {
    var g := f + [n];
    assert forall k :: 0 <= k < |f| ==> g[k] == f[k];
    forall k, i | 0 <= k < |g| && 0 <= i < g[k] ensures Key(ds[i]) != u[k].key {
      if k < |f| {
        assert Key(ds[i]) != m[k].key;
      }
    }
  }

  lemma {:induction false} NextInOrder(m: seq<Interface>, u: seq<Interface>, ds: seq<AxiDevice>, n: nat, f: seq<nat>)
      returns (g: seq<nat>)
    requires n < |ds| && FirstUses(m, ds, n, f) && KeysPresent(m, ds, n)
    requires ds[n].memoryMap != [] && u == GangOne(m, ds[n], n)
    ensures FirstUses(u, ds, n + 1, g) && KeysPresent(u, ds, n + 1)
  {
    GangOneKeys(m, ds[n], n);
    if Key(ds[n]) in Keys(m) {
      g := f;
      OldKeyUse(m, u, ds, n, f);
      var k :| 0 <= k < |m| && m[k].key == Key(ds[n]);
      assert u[k].key == Key(ds[n]);
    } else {
      g := f + [n];
      assert u[|m|].key == Key(ds[n]);
      assert forall k :: 0 <= k < |m| ==> u[k] == m[k];
      assert forall i :: 0 <= i < n ==> Key(ds[i]) != Key(ds[n]);
      NewKeyUse(m, u, ds, n, f);
    }
    KeysGrow(m, u, ds, n);
  }

  ghost predicate InUseOrder(m: seq<Interface>, ds: seq<AxiDevice>, n: nat, f: seq<nat>)
    requires n <= |ds|
  {
    FirstUses(m, ds, n, f) && KeysPresent(m, ds, n)
  }

  lemma {:induction false} GangStep(ds: seq<AxiDevice>, n: nat, f: seq<nat>) returns (g: seq<nat>)
    requires n < |ds| && Registered(ds) && InUseOrder(Gang(ds, n), ds, n, f)
    ensures InUseOrder(Gang(ds, n + 1), ds, n + 1, g)
  {
    g := NextInOrder(Gang(ds, n), Gang(ds, n + 1), ds, n, f);
  }

  /** The dictionary keeps its keys in the order they were first used. */
  lemma {:induction false} GangInOrder(ds: seq<AxiDevice>, n: nat) returns (f: seq<nat>)
    requires n <= |ds| && Registered(ds)
    ensures InUseOrder(Gang(ds, n), ds, n, f)
  {
    f := [];
    for i := 0 to n
      invariant InUseOrder(Gang(ds, i), ds, i, f)
    {
      f := GangStep(ds, i, f);
    }
  }

  /** x stands in front of y. */
  ghost predicate InFront(m: seq<Interface>, x: Interface, y: Interface) {
    exists p, q :: 0 <= p < q < |m| && m[p] == x && m[q] == y
  }

  lemma {:induction false} InFrontWithout(m: seq<Interface>, i: nat, x: Interface, y: Interface)
    requires i < |m| && InFront(Without(m, i), x, y)
    ensures InFront(m, x, y)
  {
    var w := Without(m, i);
    var p, q :| 0 <= p < q < |w| && w[p] == x && w[q] == y;
    var p', q' := if p < i then p else p + 1, if q < i then q else q + 1;
    assert m[p'] == x && m[q'] == y;
  }

  /** Taking out the first of the largest keeps equal ones in order. */
  lemma {:induction false} OrderedStable(m: seq<Interface>, j: nat, k: nat)
    requires j < k < |m| && Ordered(m)[j].size == Ordered(m)[k].size
    ensures InFront(m, Ordered(m)[j], Ordered(m)[k])
    decreases |m|
  {
    var b := Largest(m, |m|);
    var w := Without(m, b);
    if j > 0 {
      OrderedStable(w, j - 1, k - 1);
      InFrontWithout(m, b, Ordered(w)[j - 1], Ordered(w)[k - 1]);
    } else {
      SameMembers(w, Ordered(w)[k - 1]);
      var q := WithoutIndex(m, b, Ordered(w)[k - 1]);
      assert m[b] == Ordered(m)[0] && m[q] == Ordered(m)[k];
      assert q > b;
    }
  }

  lemma {:induction false} EqualInOrder(ds: seq<AxiDevice>, g: seq<Interface>, f: seq<nat>, x: Interface, y: Interface)
    requires AllSized(g) && InUseOrder(g, ds, |ds|, f) && InFront(RoundEntries(g), x, y)
    ensures KeyFirst(ds, |ds|, x.key, y.key)
  {
    var r := RoundEntries(g);
    var p, q :| 0 <= p < q < |r| && r[p] == x && r[q] == y;
    assert g[p].key == x.key && g[q].key == y.key;
    assert f[p] < f[q] && Key(ds[f[p]]) == g[p].key;
  }

  lemma {:induction false} OrderRanks(ds: seq<AxiDevice>)
    requires Registered(ds) && AllSized(Gang(ds, |ds|))
    ensures Ranked(Order(ds), ds)
  {
    var g := Gang(ds, |ds|);
    var r := RoundEntries(g);
    var o := Ordered(r);
    OrderedDescends(r);
    var f := GangInOrder(ds, |ds|);
    forall j, k | 0 <= j < k < |o|
      ensures o[j].size > o[k].size || (o[j].size == o[k].size && KeyFirst(ds, |ds|, o[j].key, o[k].key))
    {
      assert Sizes(o)[j] >= Sizes(o)[k];
      if o[j].size == o[k].size {
        OrderedStable(r, j, k);
        EqualInOrder(ds, g, f, o[j], o[k]);
      }
    }
  }

  // ---------------------------------------------------------------------------------------------------------
  // Contents
  // ---------------------------------------------------------------------------------------------------------

  lemma {:induction false} CeilPow2IsLeast(n: int)
    requires n >= 1
    ensures LeastPow2(CeilPow2(n), n)
  {
    CeilPow2Least(n, 1);
    forall p | IsPow2(p) && n <= p ensures CeilPow2(n) <= p {
      CeilPow2Least(n, p);
    }
  }

  ghost function Lengths(ds: seq<AxiDevice>, gs: seq<nat>): (starts: seq<nat>)
    requires Registered(ds) && Indexes(gs, ds)
    ensures |starts| == |gs| + 1 && forall k :: 0 <= k <= |gs| ==> starts[k] == |SharedRegisters(ds, gs, k)|
  {
    seq(|gs| + 1, k requires 0 <= k <= |gs| => |SharedRegisters(ds, gs, k)|)
  }

  ghost function Offsets(ds: seq<AxiDevice>, gs: seq<nat>): (offs: seq<int>)
    requires Indexes(gs, ds)
    ensures |offs| == |gs| + 1 && forall k :: 0 <= k <= |gs| ==> offs[k] == Offset(ds, gs, k)
  {
    seq(|gs| + 1, k requires 0 <= k <= |gs| => Offset(ds, gs, k))
  }

  lemma {:induction false} ListedLonger(a: seq<Register>, b: seq<Register>, d: AxiDevice, moved: bool, start: nat,
                                        offset: int)
    requires ListedAt(a, d, moved, start, offset)
    ensures ListedAt(a + b, d, moved, start, offset)
  {
  }

  /** A list behind others, its first register moved. */
  lemma {:induction false} MovedListed(front: seq<Register>, d: AxiDevice, offset: int)
    requires d.memoryMap != []
    ensures ListedAt(front + Moved(d, offset), d, true, |front|, offset)
  {
  }

  /** Where the p-th list stands among the first n. */
  lemma {:induction false} SharedListed(ds: seq<AxiDevice>, gs: seq<nat>, p: nat, n: nat)
    requires Registered(ds) && Indexes(gs, ds) && p < n <= |gs|
    ensures ListedAt(SharedRegisters(ds, gs, n), ds[gs[p]], p > 0, |SharedRegisters(ds, gs, p)|, Offset(ds, gs, p))
    decreases n
  {
    if n > p + 1 {
      SharedListed(ds, gs, p, n - 1);
      ListedLonger(SharedRegisters(ds, gs, n - 1), Moved(ds[gs[n - 1]], Offset(ds, gs, n - 1)), ds[gs[p]], p > 0,
                   |SharedRegisters(ds, gs, p)|, Offset(ds, gs, p));
    } else if p > 0 {
      MovedListed(SharedRegisters(ds, gs, p), ds[gs[p]], Offset(ds, gs, p));
    } else {
      assert SharedRegisters(ds, gs, 0) == [];
    }
  }

  lemma {:induction false} SharedGrows(ds: seq<AxiDevice>, gs: seq<nat>, p: nat)
    requires Registered(ds) && Indexes(gs, ds) && p < |gs|
    ensures |SharedRegisters(ds, gs, p + 1)| == |SharedRegisters(ds, gs, p)| + |ds[gs[p]].memoryMap|
    ensures Offset(ds, gs, p + 1) == Offset(ds, gs, p) + ds[gs[p]].nbytes
  {
  }

  lemma {:induction false} SharedLayout(e: Interface, ds: seq<AxiDevice>, gs: seq<nat>, starts: seq<nat>, offs: seq<int>)
    requires Registered(ds) && Indexes(gs, ds) && e.devices == gs && e.registers == SharedRegisters(ds, gs, |gs|)
    requires starts == Lengths(ds, gs) && offs == Offsets(ds, gs)
    ensures Layout(e, ds, starts, offs)
  {
    assert SharedRegisters(ds, gs, 0) == [] && Offset(ds, gs, 0) == 0;
    forall p | 0 <= p < |gs|
      ensures starts[p + 1] == starts[p] + |ds[gs[p]].memoryMap| && offs[p + 1] == offs[p] + ds[gs[p]].nbytes
      ensures ListedAt(e.registers, ds[gs[p]], p > 0, starts[p], offs[p])
    {
      SharedListed(ds, gs, p, |gs|);
      SharedGrows(ds, gs, p);
    }
  }

  lemma {:induction false} SettledEntry(e: Interface, ds: seq<AxiDevice>, x: Interface)
    requires Registered(ds) && Settled(x, ds) && e == x.(relative := e.relative)
    ensures Entry(e, ds)
  {
    if x.key == SW_REG {
      var gs := GangList(ds, |ds|);
      SettledShared(x, ds);
      GangListMembers(ds, |ds|);
      var starts, offs := Lengths(ds, gs), Offsets(ds, gs);
      SharedLayout(e, ds, gs, starts, offs);
      CeilPow2IsLeast(SharedSize(ds));
      assert Layout(e, ds, starts, offs) && LeastPow2(e.size, offs[|e.devices|]);
    } else {
      var j := SettledOwnEntry(x, ds);
      CeilPow2IsLeast(ds[j].nbytes);
      assert OwnInterface(e, ds, j);
    }
  }

  lemma {:induction false} SettledOwnEntry(x: Interface, ds: seq<AxiDevice>) returns (j: nat)
    requires Settled(x, ds) && x.key != SW_REG
    ensures j < |ds| && !ds[j].Ganged() && ds[j].nbytes >= 1
    ensures x == RoundEntry(Own(ds[j], ds[j].regname, j))
  {
    var e: Interface :| e.size >= 1 && Belongs(e, ds, |ds|) && x == RoundEntry(e);
    j :| 0 <= j < |ds| && !ds[j].Ganged() && e == Own(ds[j], ds[j].regname, j);
  }

  lemma {:induction false} ListedIff(ds: seq<AxiDevice>, i: nat)
    requires i < |ds|
    ensures Listed(ds, i) <==> (Shares(ds[i]) ==> !Ousted(ds, i))
  {
    GangListMembers(ds, |ds|);
  }

  lemma {:induction false} MapLists(ds: seq<AxiDevice>, o: seq<Interface>, m: seq<Interface>)
    requires Registered(ds) && Sound(o, ds)
    requires |m| == |o| && forall k :: 0 <= k < |o| ==> m[k] == o[k].(relative := m[k].relative)
    ensures Lists(m, ds)
  {
    forall k | 0 <= k < |m| ensures Entry(m[k], ds) {
      SettledEntry(m[k], ds, o[k]);
    }
    forall i | 0 <= i < |ds| && (Shares(ds[i]) ==> !Ousted(ds, i))
      ensures exists k :: 0 <= k < |m| && i in m[k].devices
    {
      ListedIff(ds, i);
      var k := HomeIn(ds, o, i);
      assert i in m[k].devices;
    }
    forall j, k | 0 <= j < k < |m| ensures m[j].key != m[k].key {
      assert o[j].key != o[k].key;
    }
  }

  // ---------------------------------------------------------------------------------------------------------
  // Devices
  // ---------------------------------------------------------------------------------------------------------

  /** Placing interfaces changes addresses only. */
  lemma {:induction false} ApplyAllKeeps(sd: seq<AxiDevice>, o: seq<Interface>, n: nat, base: int, a: int, i: nat)
    requires a > 0 && n <= |o| && i < |sd|
    ensures var b := ApplyAll(sd, o, n, base, a)[i].baseAddr;
            ApplyAll(sd, o, n, base, a)[i] == sd[i].(baseAddr := b)
  {
    if n > 0 {
      ApplyAllKeeps(sd, o, n - 1, base, a, i);
    }
  }

  lemma {:induction false} LastOffsetIs(regs: seq<Register>, name: string, p: nat)
    requires LastNamed(regs, name, p)
    ensures LastOffset(regs, name) == Some(regs[p].offset)
  {
    if p < |regs| - 1 {
      LastOffsetIs(regs[..|regs| - 1], name, p);
    }
  }

  /** The address of a spot is the one the interface gives. */
  lemma {:induction false} SpotAddress(ds: seq<AxiDevice>, x: Interface, i: nat, base: int, b: Option<int>)
    requires Registered(ds) && i < |ds| && Listed(ds, i) && x.key == Key(ds[i])
    requires x.key == SW_REG ==> x.registers == Shared(ds)
    requires b == At(base + x.relative, Spot(ds, i), ds[i].baseAddr)
    ensures AddressIn(x, ds[i], base, b)
  {
    if x.key == SW_REG {
      assert ds[i].Ganged();
      LastOffsetIff(x.registers, ds[i].regname);
      forall p: nat | LastNamed(x.registers, ds[i].regname, p)
        ensures b == Some(base + x.relative + x.registers[p].offset)
      {
        LastOffsetIs(x.registers, ds[i].regname, p);
      }
    }
  }

  lemma {:induction false} WithAddressesAt(o: seq<Interface>, a: int, k: nat)
    requires a > 0 && k < |o|
    ensures var x := WithAddresses(o, a)[k];
            && x.relative == Address(Sizes(o), k, a) && x.key == o[k].key && x.registers == o[k].registers
            && x.devices == o[k].devices && x.size == o[k].size
  {
  }

  /** Device i ends up at the address its spot has in interface k. */
  ghost predicate PlacedIn(ds: seq<AxiDevice>, o: seq<Interface>, base: int, a: int, i: nat, k: nat)
    requires a > 0 && Registered(ds) && i < |ds| && k < |o|
  {
    Placement(ds, o, base, a)[i].baseAddr == At(base + WithAddresses(o, a)[k].relative, Spot(ds, i), ds[i].baseAddr)
  }

  ghost function Placement(ds: seq<AxiDevice>, o: seq<Interface>, base: int, a: int): (r: seq<AxiDevice>)
    requires a > 0
    ensures |r| == |ds|
  {
    ApplyAll(StrippedAll(ds), o, |o|, base, a)
  }

  lemma {:induction false} HomeGives(ds: seq<AxiDevice>, o: seq<Interface>, base: int, a: int, i: nat, k: nat)
    requires a > 0 && Registered(ds) && Sound(o, ds) && i < |ds| && k < |o| && i in o[k].devices
    ensures Listed(ds, i) && o[k].key == Key(ds[i])
    ensures PlacedIn(ds, o, base, a, i, k)
  {
    RefersByKey(o[k], ds, i);
    OneHome(o, ds, i, k);
    PlacedAtHome(ds, o, base, a, i, k);
  }

  lemma {:induction false} PlacedAtHome(ds: seq<AxiDevice>, o: seq<Interface>, base: int, a: int, i: nat, k: nat)
    requires a > 0 && Registered(ds) && k < |o| && Settled(o[k], ds) && i < |ds| && o[k].key == Key(ds[i])
    requires Listed(ds, i) && OnlyIn(o, i, k)
    ensures PlacedIn(ds, o, base, a, i, k)
  {
    PlacedForGood(ds, o, base, a, i, k);
    assert WithAddresses(o, a)[k].relative == Address(Sizes(o), k, a);
  }

  lemma {:induction false} PlacedAddress(ds: seq<AxiDevice>, o: seq<Interface>, base: int, a: int, i: nat, k: nat)
    requires a > 0 && Registered(ds) && i < |ds| && k < |o| && PlacedIn(ds, o, base, a, i, k)
    requires Listed(ds, i) && o[k].key == Key(ds[i]) && (o[k].key == SW_REG ==> o[k].registers == Shared(ds))
    ensures AddressIn(WithAddresses(o, a)[k], ds[i], base, Placement(ds, o, base, a)[i].baseAddr)
  {
    WithAddressesAt(o, a, k);
    SpotAddress(ds, WithAddresses(o, a)[k], i, base, Placement(ds, o, base, a)[i].baseAddr);
  }

  lemma {:induction false} HomeAddress(ds: seq<AxiDevice>, o: seq<Interface>, base: int, a: int, i: nat, k: nat)
    requires a > 0 && Registered(ds) && Sound(o, ds) && i < |ds| && k < |o| && i in o[k].devices
    ensures AddressIn(WithAddresses(o, a)[k], ds[i], base, Placement(ds, o, base, a)[i].baseAddr)
  {
    HomeGives(ds, o, base, a, i, k);
    HomeRegisters(o[k], ds);
    PlacedAddress(ds, o, base, a, i, k);
  }

  lemma {:induction false} HomeRegisters(x: Interface, ds: seq<AxiDevice>)
    requires Registered(ds) && Settled(x, ds)
    ensures x.key == SW_REG ==> x.registers == Shared(ds)
  {
    if x.key == SW_REG {
      SettledShared(x, ds);
    }
  }

  /** A device in no interface keeps what it had. */
  lemma {:induction false} NoHome(ds: seq<AxiDevice>, o: seq<Interface>, base: int, a: int, i: nat)
    requires a > 0 && i < |ds| && forall k :: 0 <= k < |o| ==> i !in WithAddresses(o, a)[k].devices
    ensures ApplyAll(StrippedAll(ds), o, |o|, base, a)[i].baseAddr == ds[i].baseAddr
  {
    forall k | 0 <= k < |o| ensures i !in o[k].devices {
      assert WithAddresses(o, a)[k].devices == o[k].devices;
    }
    Untouched(StrippedAll(ds), o, |o|, base, a, i);
  }

  lemma {:induction false} DeviceUpdated(ds: seq<AxiDevice>, o: seq<Interface>, base: int, a: int, i: nat)
    requires a > 0 && Registered(ds) && Sound(o, ds) && i < |ds|
    ensures Updated(ds[i], Placement(ds, o, base, a)[i], i, WithAddresses(o, a), base)
  {
    var m, r := WithAddresses(o, a), Placement(ds, o, base, a)[i];
    ApplyAllKeeps(StrippedAll(ds), o, |o|, base, a, i);
    assert r == Stripped(ds[i]).(baseAddr := r.baseAddr);
    forall k | 0 <= k < |m| && i in m[k].devices ensures AddressIn(m[k], ds[i], base, r.baseAddr) {
      WithAddressesAt(o, a, k);
      HomeAddress(ds, o, base, a, i, k);
    }
    if forall k :: 0 <= k < |m| ==> i !in m[k].devices {
      NoHome(ds, o, base, a, i);
    }
  }

  // ---------------------------------------------------------------------------------------------------------
  // The whole
  // ---------------------------------------------------------------------------------------------------------

  lemma {:induction false} SizedIsSound(ds: seq<AxiDevice>)
    requires Registered(ds) && AllSized(Gang(ds, |ds|))
    ensures Sound(Order(ds), ds)
  {
    GangCollects(ds, |ds|);
    OrderKeys(Gang(ds, |ds|));
    EntriesSettle(Gang(ds, |ds|), ds);
  }

  lemma {:induction false} RankedWithAddresses(o: seq<Interface>, ds: seq<AxiDevice>, a: int)
    requires a > 0 && Ranked(o, ds)
    ensures Ranked(WithAddresses(o, a), ds)
  {
    var m := WithAddresses(o, a);
    forall j, k | 0 <= j < k < |m|
      ensures m[j].size > m[k].size || (m[j].size == m[k].size && KeyFirst(ds, |ds|, m[j].key, m[k].key))
    {
      assert o[j].size > o[k].size || (o[j].size == o[k].size && KeyFirst(ds, |ds|, o[j].key, o[k].key));
    }
  }

  /** The finished map and devices, for every registered list. */
  lemma {:induction false} MapIsFinished(ds: seq<AxiDevice>, base: int, a: int)
    requires a > 0 && Registered(ds) && AllSized(Gang(ds, |ds|))
    ensures Finished(ds, WithAddresses(Order(ds), a), Addressed(ds, base, a), base, a)
  {
    var o := Order(ds);
    SizedIsSound(ds);
    MapLists(ds, o, WithAddresses(o, a));
    OrderRanks(ds);
    RankedWithAddresses(o, ds, a);
    AddressesChain(o, a);
    forall i | 0 <= i < |ds| ensures Updated(ds[i], Addressed(ds, base, a)[i], i, WithAddresses(o, a), base) {
      DeviceUpdated(ds, o, base, a, i);
    }
  }

  /** No interface is empty: every device with an interface of its own has bytes, and so has the shared interface if
      there is one. */
  ghost predicate NoneEmpty(ds: seq<AxiDevice>)
    requires Registered(ds)
  {
    && (forall i :: 0 <= i < |ds| && !Shares(ds[i]) ==> ds[i].nbytes >= 1)
    && (GangList(ds, |ds|) != [] ==> SharedSize(ds) >= 1)
  }

  lemma {:induction false} OwnSized(m: seq<Interface>, ds: seq<AxiDevice>, i: nat)
    requires Registered(ds) && Collected(m, ds, |ds|) && AllSized(m) && i < |ds| && !ds[i].Ganged()
    ensures ds[i].nbytes >= 1
  {
    var k :| 0 <= k < |m| && m[k].key == ds[i].regname;
    assert Belongs(m[k], ds, |ds|);
    var j :| 0 <= j < |ds| && !ds[j].Ganged() && m[k] == Own(ds[j], ds[j].regname, j);
    NameIdentifies(ds, i, j);
  }

  /** Exactly when every interface has bytes. */
  lemma {:induction false} AllSizedIff(ds: seq<AxiDevice>)
    requires Registered(ds)
    ensures AllSized(Gang(ds, |ds|)) <==> NoneEmpty(ds)
  {
    var m := Gang(ds, |ds|);
    GangCollects(ds, |ds|);
    if AllSized(m) {
      forall i | 0 <= i < |ds| && !Shares(ds[i]) ensures ds[i].nbytes >= 1 {
        OwnSized(m, ds, i);
      }
      if GangList(ds, |ds|) != [] {
        var k :| 0 <= k < |m| && m[k].key == SW_REG;
        assert Belongs(m[k], ds, |ds|);
      }
    }
    if NoneEmpty(ds) {
      forall k | 0 <= k < |m| ensures m[k].size >= 1 {
        assert Belongs(m[k], ds, |ds|);
        assert m[k].key in Keys(m);
      }
    }
  }
}

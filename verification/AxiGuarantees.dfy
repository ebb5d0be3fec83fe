/** What a finished AXI4-Lite memory map guarantees: when every device has an address, when no two devices overlap, and
    that every interface is naturally aligned. */
module AxiGuarantees {
  import opened Arith
  import opened AxiLayout
  import opened AxiMap
  import opened AxiOrder
  import opened Wrappers

  ghost predicate AllNonEmpty(ds: seq<AxiDevice>) {
    forall i :: 0 <= i < |ds| ==> ds[i].nbytes >= 1
  }

  /** An entry of the finished map: the raw entry it came from, with its size rounded. */
  ghost predicate Settled(x: Interface, ds: seq<AxiDevice>) {
    exists e: Interface :: e.size >= 1 && Belongs(e, ds, |ds|) && x == RoundEntry(e)
  }

  ghost predicate Sound(o: seq<Interface>, ds: seq<AxiDevice>) {
    && DistinctKeys(o)
    && (forall k :: 0 <= k < |o| ==> Settled(o[k], ds))
    && OwnersPresent(o, ds, |ds|)
    && (GangList(ds, |ds|) != [] ==> SW_REG in Keys(o))
  }

  lemma {:induction false} OffsetGrows(ds: seq<AxiDevice>, gs: seq<nat>, j: nat, k: nat)
    requires AllNonEmpty(ds) && Indexes(gs, ds) && j <= k <= |gs|
    ensures Offset(ds, gs, j) + (k - j) <= Offset(ds, gs, k)
    decreases k
  {
    if j < k {
      OffsetGrows(ds, gs, j, k - 1);
    }
  }

  /** Interfaces of non-empty devices are non-empty. */
  lemma {:induction false} GangSized(ds: seq<AxiDevice>, n: nat)
    requires n <= |ds| && Registered(ds) && AllNonEmpty(ds)
    ensures AllSized(Gang(ds, n))
  {
    if n > 0 {
      GangSized(ds, n - 1);
    }
  }

  lemma {:induction false} RoundedKeys(m: seq<Interface>)
    requires AllSized(m)
    ensures Keys(RoundEntries(m)) == Keys(m)
    ensures DistinctKeys(m) ==> DistinctKeys(RoundEntries(m))
  {
    var r := RoundEntries(m);
    assert forall k :: 0 <= k < |m| ==> r[k].key == m[k].key;
    forall key | key in Keys(m) ensures key in Keys(r) {
      var k :| 0 <= k < |m| && m[k].key == key;
      assert r[k].key == key;
    }
  }

  lemma {:induction false} OrderedSameKeys(m: seq<Interface>)
    ensures Keys(Ordered(m)) == Keys(m)
  {
    forall key | key in Keys(m) ensures key in Keys(Ordered(m)) {
      var k :| 0 <= k < |m| && m[k].key == key;
      SameMembers(m, m[k]);
      var q :| 0 <= q < |Ordered(m)| && Ordered(m)[q] == m[k];
    }
    forall key | key in Keys(Ordered(m)) ensures key in Keys(m) {
      var k :| 0 <= k < |m| && Ordered(m)[k].key == key;
      SameMembers(m, Ordered(m)[k]);
      var q :| 0 <= q < |m| && m[q] == Ordered(m)[k];
    }
  }

  lemma {:induction false} EntriesSettle(g: seq<Interface>, ds: seq<AxiDevice>)
    requires AllSized(g) && EntriesBelong(g, ds, |ds|)
    ensures forall k :: 0 <= k < |g| ==> Settled(Ordered(RoundEntries(g))[k], ds)
  {
    var r := RoundEntries(g);
    forall k | 0 <= k < |g| ensures Settled(Ordered(r)[k], ds) {
      SameMembers(r, Ordered(r)[k]);
      var q :| 0 <= q < |r| && r[q] == Ordered(r)[k];
      assert Belongs(g[q], ds, |ds|);
    }
  }

  lemma {:induction false} OrderKeys(g: seq<Interface>)
    requires AllSized(g) && DistinctKeys(g)
    ensures DistinctKeys(Ordered(RoundEntries(g))) && Keys(Ordered(RoundEntries(g))) == Keys(g)
  {
    RoundedKeys(g);
    OrderedSameKeys(RoundEntries(g));
    OrderedKeepsKeys(RoundEntries(g));
  }

  lemma {:induction false} OrderIsSound(ds: seq<AxiDevice>)
    requires Registered(ds) && AllNonEmpty(ds)
    ensures AllSized(Gang(ds, |ds|)) && Sound(Order(ds), ds)
  {
    GangSized(ds, |ds|);
    GangCollects(ds, |ds|);
    OrderKeys(Gang(ds, |ds|));
    EntriesSettle(Gang(ds, |ds|), ds);
  }

  // ---------------------------------------------------------------------------------------------------------
  // Where a device lives
  // ---------------------------------------------------------------------------------------------------------

  function Key(d: AxiDevice): string {
    if d.Ganged() then SW_REG else d.regname
  }

  /** The device is in the finished map: nothing has displaced it. */
  ghost predicate Listed(ds: seq<AxiDevice>, i: nat)
    requires i < |ds|
  {
    ds[i].Ganged() ==> i in GangList(ds, |ds|)
  }

  /** The registers of the shared interface. */
  ghost function Shared(ds: seq<AxiDevice>): seq<Register>
    requires Registered(ds)
  {
    GangListMembers(ds, |ds|);
    SharedRegisters(ds, GangList(ds, |ds|), |GangList(ds, |ds|)|)
  }

  ghost function SharedSize(ds: seq<AxiDevice>): int {
    GangListMembers(ds, |ds|);
    Offset(ds, GangList(ds, |ds|), |GangList(ds, |ds|)|)
  }

  /** The offset a device is found at inside its interface, worked out from the registrations alone: a ganged device is
      found at the last shared register of its name, if there is one. */
  ghost function Spot(ds: seq<AxiDevice>, i: nat): Option<int>
    requires Registered(ds) && i < |ds|
  {
    if !ds[i].Ganged() then Some(0)
    else if Listed(ds, i) then LastOffset(Shared(ds), ds[i].regname)
    else None
  }

  /** What is known of the shared interface in the finished map. */
  lemma {:induction false} SettledShared(x: Interface, ds: seq<AxiDevice>)
    requires Registered(ds) && Settled(x, ds) && x.key == SW_REG
    ensures x.devices == GangList(ds, |ds|) && x.registers == Shared(ds)
    ensures SharedSize(ds) >= 1 && x.size == CeilPow2(SharedSize(ds))
  {
    var e: Interface :| e.size >= 1 && Belongs(e, ds, |ds|) && x == RoundEntry(e);
  }

  /** What is known of any other interface. */
  lemma {:induction false} SettledOwn(x: Interface, ds: seq<AxiDevice>) returns (j: nat)
    requires Settled(x, ds) && x.key != SW_REG
    ensures j < |ds| && !ds[j].Ganged() && x.key == ds[j].regname && x.devices == [j]
    ensures ds[j].nbytes >= 1 && x.size == CeilPow2(ds[j].nbytes)
  {
    var e: Interface :| e.size >= 1 && Belongs(e, ds, |ds|) && x == RoundEntry(e);
    j :| 0 <= j < |ds| && !ds[j].Ganged() && e == Own(ds[j], ds[j].regname, j);
  }

  lemma {:induction false} NamesDiffer(ds: seq<AxiDevice>, i: nat, j: nat)
    requires Registered(ds) && i < |ds| && j < |ds| && i != j
    ensures ds[i].regname != ds[j].regname
  {
    if i < j { assert ds[i].regname != ds[j].regname; } else { assert ds[j].regname != ds[i].regname; }
  }

  /** An interface refers to exactly the devices listed under its key. */
  lemma {:induction false} RefersByKey(x: Interface, ds: seq<AxiDevice>, i: nat)
    requires Registered(ds) && Settled(x, ds) && i < |ds|
    ensures i in x.devices <==> Key(ds[i]) == x.key && Listed(ds, i)
  {
    if x.key == SW_REG {
      SettledShared(x, ds);
      GangListMembers(ds, |ds|);
    } else {
      var j := SettledOwn(x, ds);
      if i != j { NamesDiffer(ds, i, j); }
    }
  }

  lemma {:induction false} KeyPresent(o: seq<Interface>, ds: seq<AxiDevice>, i: nat)
    requires Sound(o, ds) && i < |ds| && Listed(ds, i)
    ensures Key(ds[i]) in Keys(o)
  {
  }

  ghost predicate SameNames(r: seq<AxiDevice>, ds: seq<AxiDevice>) {
    |r| == |ds| && forall i :: 0 <= i < |ds| ==> r[i].regname == ds[i].regname
  }

  lemma {:induction false} ApplyAllNames(ds: seq<AxiDevice>, m: seq<Interface>, n: nat, base: int, a: int)
    requires a > 0 && n <= |m|
    ensures SameNames(ApplyAll(ds, m, n, base, a), ds)
  {
    if n > 0 {
      ApplyAllNames(ds, m, n - 1, base, a);
    }
  }

  /** The address of a spot in an interface; without a spot the device keeps what it had. */
  function At(addr: int, spot: Option<int>, before: Option<int>): Option<int> {
    if spot.Some? then Some(addr + spot.value) else before
  }

  /** Placing an interface that does not hold the device leaves it alone. */
  lemma {:induction false} ApplyOther(r: seq<AxiDevice>, x: Interface, addr: int, i: nat)
    requires i < |r| && i !in x.devices
    ensures Apply(r, x, addr)[i] == r[i]
  {
  }

  lemma {:induction false} ApplyShared(r: seq<AxiDevice>, x: Interface, addr: int, i: nat)
    requires i < |r| && x.key == SW_REG && i in x.devices
    ensures Apply(r, x, addr)[i].baseAddr == At(addr, LastOffset(x.registers, r[i].regname), r[i].baseAddr)
  {
  }

  lemma {:induction false} ApplyOwn(r: seq<AxiDevice>, x: Interface, addr: int, i: nat)
    requires i < |r| && x.key != SW_REG && x.devices == [i]
    ensures Apply(r, x, addr)[i].baseAddr == Some(addr)
  {
  }

  lemma {:induction false} NameIdentifies(ds: seq<AxiDevice>, i: nat, j: nat)
    requires Registered(ds) && i < |ds| && j < |ds| && ds[i].regname == ds[j].regname
    ensures i == j
  {
  }

  /** Placing the interface that holds it gives it its address. */
  lemma {:induction false} ApplyHome(r: seq<AxiDevice>, ds: seq<AxiDevice>, x: Interface, addr: int, i: nat)
    requires Registered(ds) && Settled(x, ds) && SameNames(r, ds) && i < |ds| && Key(ds[i]) == x.key && Listed(ds, i)
    ensures Apply(r, x, addr)[i].baseAddr == At(addr, Spot(ds, i), r[i].baseAddr)
  {
    if ds[i].Ganged() {
      RefersByKey(x, ds, i);
      SettledShared(x, ds);
      ApplyShared(r, x, addr, i);
    } else {
      OwnKeyNotShared(x, ds, i);
      var j := SettledOwn(x, ds);
      NameIdentifies(ds, i, j);
      ApplyOwn(r, x, addr, i);
    }
  }

  lemma {:induction false} OwnKeyNotShared(x: Interface, ds: seq<AxiDevice>, i: nat)
    requires i < |ds| && !ds[i].Ganged() && Key(ds[i]) == x.key
    ensures x.key != SW_REG
  {
  }

  lemma {:induction false} StrippedNames(r: seq<AxiDevice>, ds: seq<AxiDevice>)
    requires SameNames(r, StrippedAll(ds))
    ensures SameNames(r, ds)
  {
    assert forall i :: 0 <= i < |ds| ==> StrippedAll(ds)[i].regname == ds[i].regname;
  }

  /** Device i is listed nowhere but in interface k. */
  ghost predicate OnlyIn(o: seq<Interface>, i: nat, k: nat) {
    forall q :: 0 <= q < |o| && q != k ==> i !in o[q].devices
  }

  lemma {:induction false} OneHome(o: seq<Interface>, ds: seq<AxiDevice>, i: nat, k: nat)
    requires Registered(ds) && Sound(o, ds) && k < |o| && i < |ds| && o[k].key == Key(ds[i])
    ensures OnlyIn(o, i, k)
  {
    forall q | 0 <= q < |o| && q != k ensures i !in o[q].devices {
      if k < q { assert o[k].key != o[q].key; } else { assert o[q].key != o[k].key; }
      RefersByKey(o[q], ds, i);
    }
  }

  /** Once its interface k has been placed, later interfaces leave the device alone. */
  lemma {:induction false} StaysPlaced(sd: seq<AxiDevice>, o: seq<Interface>, n: nat, base: int, a: int, i: nat, k: nat)
    requires a > 0 && k < n <= |o| && i < |sd| && OnlyIn(o, i, k)
    ensures ApplyAll(sd, o, n, base, a)[i] == ApplyAll(sd, o, k + 1, base, a)[i]
    decreases n
  {
    if n > k + 1 {
      StaysPlaced(sd, o, n - 1, base, a, i, k);
      ApplyOther(ApplyAll(sd, o, n - 1, base, a), o[n - 1], base + Address(Sizes(o), n - 1, a), i);
      ApplyStep(sd, o, n - 1, base, a);
    }
  }

  /** Interfaces that do not hold the device leave it alone. */
  lemma {:induction false} Untouched(sd: seq<AxiDevice>, o: seq<Interface>, n: nat, base: int, a: int, i: nat)
    requires a > 0 && n <= |o| && i < |sd| && forall q :: 0 <= q < n ==> i !in o[q].devices
    ensures ApplyAll(sd, o, n, base, a)[i] == sd[i]
  {
    if n > 0 {
      Untouched(sd, o, n - 1, base, a, i);
      ApplyOther(ApplyAll(sd, o, n - 1, base, a), o[n - 1], base + Address(Sizes(o), n - 1, a), i);
    }
  }

  lemma {:induction false} PlacedAt(ds: seq<AxiDevice>, o: seq<Interface>, base: int, a: int, i: nat, k: nat)
    requires a > 0 && Registered(ds) && k < |o| && Settled(o[k], ds) && i < |ds| && o[k].key == Key(ds[i])
    requires Listed(ds, i) && OnlyIn(o, i, k)
    ensures ApplyAll(StrippedAll(ds), o, k + 1, base, a)[i].baseAddr ==
              At(base + Address(Sizes(o), k, a), Spot(ds, i), ds[i].baseAddr)
  {
    var before := ApplyAll(StrippedAll(ds), o, k, base, a);
    ApplyAllNames(StrippedAll(ds), o, k, base, a);
    StrippedNames(before, ds);
    Untouched(StrippedAll(ds), o, k, base, a, i);
    ApplyHome(before, ds, o[k], base + Address(Sizes(o), k, a), i);
    ApplyStep(StrippedAll(ds), o, k, base, a);
  }

  // ---------------------------------------------------------------------------------------------------------
  // Who receives which address
  // ---------------------------------------------------------------------------------------------------------

  /** Every listed device has one interface in the finished map. */
  lemma {:induction false} HomeOf(ds: seq<AxiDevice>, i: nat) returns (k: nat)
    requires Registered(ds) && AllNonEmpty(ds) && i < |ds| && Listed(ds, i)
    ensures AllSized(Gang(ds, |ds|))
    ensures k < |Order(ds)| && Order(ds)[k].key == Key(ds[i])
    ensures Settled(Order(ds)[k], ds) && OnlyIn(Order(ds), i, k) && i in Order(ds)[k].devices
  {
    OrderIsSound(ds);
    k := HomeIn(ds, Order(ds), i);
  }

  lemma {:induction false} HomeIn(ds: seq<AxiDevice>, o: seq<Interface>, i: nat) returns (k: nat)
    requires Registered(ds) && Sound(o, ds) && i < |ds| && Listed(ds, i)
    ensures k < |o| && o[k].key == Key(ds[i]) && Settled(o[k], ds) && OnlyIn(o, i, k) && i in o[k].devices
  {
    KeyPresent(o, ds, i);
    k :| 0 <= k < |o| && o[k].key == Key(ds[i]);
    OneHome(o, ds, i, k);
    RefersByKey(o[k], ds, i);
  }

  /** A listed device's address is its interface's address plus its spot there. */
  lemma {:induction false} DeviceAddress(ds: seq<AxiDevice>, base: int, a: int, i: nat, k: nat)
    requires a > 0 && Registered(ds) && AllSized(Gang(ds, |ds|)) && i < |ds| && Listed(ds, i)
    requires k < |Order(ds)| && Order(ds)[k].key == Key(ds[i])
    requires Settled(Order(ds)[k], ds) && OnlyIn(Order(ds), i, k)
    ensures Addressed(ds, base, a)[i].baseAddr ==
              At(base + Address(Sizes(Order(ds)), k, a), Spot(ds, i), ds[i].baseAddr)
  {
    var o := Order(ds);
    var r := ApplyAll(StrippedAll(ds), o, |o|, base, a);
    assert Addressed(ds, base, a) == r;
    PlacedForGood(ds, o, base, a, i, k);
    assert r[i].baseAddr == At(base + Address(Sizes(o), k, a), Spot(ds, i), ds[i].baseAddr);
  }

  lemma {:induction false} PlacedForGood(ds: seq<AxiDevice>, o: seq<Interface>, base: int, a: int, i: nat, k: nat)
    requires a > 0 && Registered(ds) && k < |o| && Settled(o[k], ds) && i < |ds| && o[k].key == Key(ds[i])
    requires Listed(ds, i) && OnlyIn(o, i, k)
    ensures ApplyAll(StrippedAll(ds), o, |o|, base, a)[i].baseAddr ==
              At(base + Address(Sizes(o), k, a), Spot(ds, i), ds[i].baseAddr)
  {
    PlacedAt(ds, o, base, a, i, k);
    StaysPlaced(StrippedAll(ds), o, |o|, base, a, i, k);
  }

  /** A displaced device keeps no address. */
  lemma {:induction false} UnlistedAddress(ds: seq<AxiDevice>, base: int, a: int, i: nat)
    requires a > 0 && Registered(ds) && AllSized(Gang(ds, |ds|)) && i < |ds| && !Listed(ds, i)
    ensures Addressed(ds, base, a)[i].baseAddr == ds[i].baseAddr
  {
    GangListMembers(ds, |ds|);
    DisplacedIsUnlisted(ds, |ds|, i);
    OrderKeepsUnlisted(Gang(ds, |ds|), i);
    Untouched(StrippedAll(ds), Order(ds), |Order(ds)|, base, a, i);
  }

  /** A device receives an address if and only if it has a spot. */
  lemma {:induction false} AddressedIffSpot(ds: seq<AxiDevice>, base: int, a: int, i: nat)
    requires a > 0 && Registered(ds) && AllNonEmpty(ds) && i < |ds| && ds[i].baseAddr == None
    ensures AllSized(Gang(ds, |ds|))
    ensures Addressed(ds, base, a)[i].baseAddr.Some? <==> Spot(ds, i).Some?
  {
    GangSized(ds, |ds|);
    if Listed(ds, i) {
      ListedAddress(ds, base, a, i);
    } else {
      UnlistedAddress(ds, base, a, i);
    }
  }

  lemma {:induction false} ListedAddress(ds: seq<AxiDevice>, base: int, a: int, i: nat)
    requires a > 0 && Registered(ds) && AllNonEmpty(ds) && i < |ds| && ds[i].baseAddr == None && Listed(ds, i)
    ensures AllSized(Gang(ds, |ds|))
    ensures Addressed(ds, base, a)[i].baseAddr.Some? <==> Spot(ds, i).Some?
  {
    var k := HomeOf(ds, i);
    var addr := base + Address(Sizes(Order(ds)), k, a);
    var b := Addressed(ds, base, a)[i].baseAddr;
    DeviceAddress(ds, base, a, i, k);
    assert b == At(addr, Spot(ds, i), None);
    AtSome(addr, Spot(ds, i));
  }

  lemma {:induction false} AtSome(addr: int, spot: Option<int>)
    ensures At(addr, spot, None).Some? <==> spot.Some?
  {
  }

  // ---------------------------------------------------------------------------------------------------------
  // Layout
  // ---------------------------------------------------------------------------------------------------------

  /** The bytes [b, b + n) of a placed device. */
  ghost predicate Apart(b: int, n: int, c: int, m: int) {
    b + n <= c || c + m <= b
  }

  lemma {:induction false} OrderSizes(ds: seq<AxiDevice>)
    requires Registered(ds) && AllNonEmpty(ds)
    ensures AllSized(Gang(ds, |ds|))
    ensures AllPow2(Sizes(Order(ds))) && Descending(Sizes(Order(ds)))
    ensures forall k :: 0 <= k < |Order(ds)| ==> Sizes(Order(ds))[k] > 0
  {
    GangSized(ds, |ds|);
    var r := RoundEntries(Gang(ds, |ds|));
    var o := Order(ds);
    OrderedDescends(r);
    forall k | 0 <= k < |o| ensures IsPow2(Sizes(o)[k]) && Sizes(o)[k] > 0 {
      SameMembers(r, o[k]);
      var q :| 0 <= q < |r| && r[q] == o[k];
      CeilPow2Least(Gang(ds, |ds|)[q].size, 1);
    }
  }

  /** The bytes of device i, placed at b, lie inside the window of an interface that holds it. */
  ghost predicate InsideOwn(ds: seq<AxiDevice>, base: int, a: int, i: nat, b: int)
    requires a > 0 && Registered(ds) && AllSized(Gang(ds, |ds|)) && i < |ds|
  {
    exists k :: && 0 <= k < |Order(ds)| && i in Order(ds)[k].devices
                && base + Address(Sizes(Order(ds)), k, a) <= b
                && b + ds[i].nbytes <= base + Address(Sizes(Order(ds)), k, a) + Order(ds)[k].size
  }

  /** Every device that received an address lies inside its interface, and no two of them overlap. */
  ghost predicate LaidOut(ds: seq<AxiDevice>, base: int, a: int)
    requires a > 0 && Registered(ds) && AllSized(Gang(ds, |ds|))
  {
    var r := Addressed(ds, base, a);
    && (forall i :: 0 <= i < |ds| && r[i].baseAddr.Some? ==> InsideOwn(ds, base, a, i, r[i].baseAddr.value))
    && (forall i, j :: 0 <= i < |ds| && 0 <= j < |ds| && i != j && r[i].baseAddr.Some? && r[j].baseAddr.Some? ==>
          Apart(r[i].baseAddr.value, ds[i].nbytes, r[j].baseAddr.value, ds[j].nbytes))
  }

  /** What the registrations have to meet: the spots of the ganged devices lie inside the shared interface and do not
      overlap. */
  ghost predicate SpotsFit(ds: seq<AxiDevice>)
    requires Registered(ds)
  {
    && (forall i :: 0 <= i < |ds| && ds[i].Ganged() && Spot(ds, i).Some? ==>
          SharedSize(ds) >= 1 && 0 <= Spot(ds, i).value && Spot(ds, i).value + ds[i].nbytes <= CeilPow2(SharedSize(ds)))
    && (forall i, j :: 0 <= i < |ds| && 0 <= j < |ds| && i != j && ds[i].Ganged() && ds[j].Ganged() &&
                       Spot(ds, i).Some? && Spot(ds, j).Some? ==>
          Apart(Spot(ds, i).value, ds[i].nbytes, Spot(ds, j).value, ds[j].nbytes))
  }

  /** Where a device with a spot is. */
  lemma {:induction false} SpotHome(ds: seq<AxiDevice>, base: int, a: int, i: nat) returns (k: nat)
    requires a > 0 && Registered(ds) && AllNonEmpty(ds) && i < |ds| && Spot(ds, i).Some?
    ensures AllSized(Gang(ds, |ds|))
    ensures k < |Order(ds)| && Order(ds)[k].key == Key(ds[i]) && Settled(Order(ds)[k], ds)
    ensures i in Order(ds)[k].devices && OnlyIn(Order(ds), i, k)
    ensures Addressed(ds, base, a)[i].baseAddr == Some(base + Address(Sizes(Order(ds)), k, a) + Spot(ds, i).value)
  {
    k := HomeOf(ds, i);
    var addr := base + Address(Sizes(Order(ds)), k, a);
    DeviceAddress(ds, base, a, i, k);
    assert At(addr, Spot(ds, i), ds[i].baseAddr) == Some(addr + Spot(ds, i).value);
  }

  /** The spot of device i lies inside an interface of its own. */
  ghost predicate FitsIn(ds: seq<AxiDevice>, x: Interface, i: nat)
    requires Registered(ds) && i < |ds|
  {
    Spot(ds, i).Some? && 0 <= Spot(ds, i).value && Spot(ds, i).value + ds[i].nbytes <= x.size
  }

  lemma {:induction false} FitsItsHome(ds: seq<AxiDevice>, x: Interface, i: nat)
    requires Registered(ds) && AllNonEmpty(ds) && SpotsFit(ds) && i < |ds| && Spot(ds, i).Some?
    requires Settled(x, ds) && x.key == Key(ds[i])
    ensures FitsIn(ds, x, i)
  {
    if ds[i].Ganged() {
      SettledShared(x, ds);
    } else {
      OwnKeyNotShared(x, ds, i);
      var j := SettledOwn(x, ds);
      NameIdentifies(ds, i, j);
    }
  }

  /** Devices whose spots fit do not overlap, wherever they were registered from. */
  lemma {:induction false} DevicesDisjoint(ds: seq<AxiDevice>, base: int, a: int, i: nat, j: nat)
    requires a > 0 && Registered(ds) && AllNonEmpty(ds) && SpotsFit(ds)
    requires i < |ds| && j < |ds| && i != j && Spot(ds, i).Some? && Spot(ds, j).Some?
    ensures AllSized(Gang(ds, |ds|))
    ensures var r := Addressed(ds, base, a);
            && r[i].baseAddr.Some? && r[j].baseAddr.Some?
            && Apart(r[i].baseAddr.value, ds[i].nbytes, r[j].baseAddr.value, ds[j].nbytes)
  {
    var k := SpotHome(ds, base, a, i);
    var q := SpotHome(ds, base, a, j);
    FitsItsHome(ds, Order(ds)[k], i);
    FitsItsHome(ds, Order(ds)[q], j);
    HomesApart(ds, a, i, j, k, q);
  }

  lemma {:induction false} HomesApart(ds: seq<AxiDevice>, a: int, i: nat, j: nat, k: nat, q: nat)
    requires a > 0 && Registered(ds) && AllNonEmpty(ds) && SpotsFit(ds) && AllSized(Gang(ds, |ds|))
    requires i < |ds| && j < |ds| && i != j && k < |Order(ds)| && q < |Order(ds)|
    requires Order(ds)[k].key == Key(ds[i]) && FitsIn(ds, Order(ds)[k], i)
    requires Order(ds)[q].key == Key(ds[j]) && FitsIn(ds, Order(ds)[q], j)
    ensures Apart(Address(Sizes(Order(ds)), k, a) + Spot(ds, i).value, ds[i].nbytes,
                  Address(Sizes(Order(ds)), q, a) + Spot(ds, j).value, ds[j].nbytes)
  {
    var o := Order(ds);
    OrderSizes(ds);
    if k < q {
      PackedApart(Sizes(o), k, q, a);
    } else if q < k {
      PackedApart(Sizes(o), q, k, a);
    } else {
      NamesDiffer(ds, i, j);
      assert ds[i].Ganged() && ds[j].Ganged();
    }
  }

  /** Every device whose spot fits lies inside its interface's window. */
  lemma {:induction false} DeviceInsideInterface(ds: seq<AxiDevice>, base: int, a: int, i: nat)
    requires a > 0 && Registered(ds) && AllNonEmpty(ds) && SpotsFit(ds) && i < |ds| && Spot(ds, i).Some?
    ensures AllSized(Gang(ds, |ds|))
    ensures var b := Addressed(ds, base, a)[i].baseAddr;
            b.Some? && InsideOwn(ds, base, a, i, b.value)
  {
    var k := SpotHome(ds, base, a, i);
    FitsItsHome(ds, Order(ds)[k], i);
  }

  /** After rounding, ordering and packing the map is laid out if and only if the spots fit, which the register lists
      alone decide. */
  lemma {:induction false} LaidOutIff(ds: seq<AxiDevice>, base: int, a: int)
    requires a > 0 && Registered(ds) && AllNonEmpty(ds) && forall i :: 0 <= i < |ds| ==> ds[i].baseAddr == None
    ensures AllSized(Gang(ds, |ds|))
    ensures LaidOut(ds, base, a) <==> SpotsFit(ds)
  {
    GangSized(ds, |ds|);
    var r := Addressed(ds, base, a);
    forall i | 0 <= i < |ds| ensures r[i].baseAddr.Some? <==> Spot(ds, i).Some? {
      AddressedIffSpot(ds, base, a, i);
    }
    if SpotsFit(ds) {
      forall i | 0 <= i < |ds| && Spot(ds, i).Some? ensures InsideOwn(ds, base, a, i, r[i].baseAddr.value) {
        DeviceInsideInterface(ds, base, a, i);
      }
      forall i, j | 0 <= i < |ds| && 0 <= j < |ds| && i != j && Spot(ds, i).Some? && Spot(ds, j).Some?
        ensures Apart(r[i].baseAddr.value, ds[i].nbytes, r[j].baseAddr.value, ds[j].nbytes)
      {
        DevicesDisjoint(ds, base, a, i, j);
      }
    }
    if LaidOut(ds, base, a) {
      LaidOutFits(ds, base, a);
    }
  }

  lemma {:induction false} LaidOutFits(ds: seq<AxiDevice>, base: int, a: int)
    requires a > 0 && Registered(ds) && AllNonEmpty(ds) && AllSized(Gang(ds, |ds|)) && LaidOut(ds, base, a)
    ensures SpotsFit(ds)
  {
    forall i | 0 <= i < |ds| && ds[i].Ganged() && Spot(ds, i).Some?
      ensures SharedSize(ds) >= 1 && 0 <= Spot(ds, i).value && Spot(ds, i).value + ds[i].nbytes <= CeilPow2(SharedSize(ds))
    {
      InsideFits(ds, base, a, i);
    }
    forall i, j | 0 <= i < |ds| && 0 <= j < |ds| && i != j && ds[i].Ganged() && ds[j].Ganged() &&
                  Spot(ds, i).Some? && Spot(ds, j).Some?
      ensures Apart(Spot(ds, i).value, ds[i].nbytes, Spot(ds, j).value, ds[j].nbytes)
    {
      SameHome(ds, base, a, i, j);
    }
  }

  lemma {:induction false} InsideFits(ds: seq<AxiDevice>, base: int, a: int, i: nat)
    requires a > 0 && Registered(ds) && AllNonEmpty(ds) && AllSized(Gang(ds, |ds|)) && LaidOut(ds, base, a)
    requires i < |ds| && ds[i].Ganged() && Spot(ds, i).Some?
    ensures SharedSize(ds) >= 1 && 0 <= Spot(ds, i).value && Spot(ds, i).value + ds[i].nbytes <= CeilPow2(SharedSize(ds))
  {
    var k := SpotHome(ds, base, a, i);
    SettledShared(Order(ds)[k], ds);
    assert InsideOwn(ds, base, a, i, Addressed(ds, base, a)[i].baseAddr.value);
  }

  lemma {:induction false} SameHome(ds: seq<AxiDevice>, base: int, a: int, i: nat, j: nat)
    requires a > 0 && Registered(ds) && AllNonEmpty(ds) && AllSized(Gang(ds, |ds|)) && LaidOut(ds, base, a)
    requires i < |ds| && j < |ds| && i != j && ds[i].Ganged() && ds[j].Ganged()
    requires Spot(ds, i).Some? && Spot(ds, j).Some?
    ensures Apart(Spot(ds, i).value, ds[i].nbytes, Spot(ds, j).value, ds[j].nbytes)
  {
    var k := SpotHome(ds, base, a, i);
    var q := SpotHome(ds, base, a, j);
    OneKeyOneHome(ds, k, q);
  }

  lemma {:induction false} OneKeyOneHome(ds: seq<AxiDevice>, k: nat, q: nat)
    requires Registered(ds) && AllNonEmpty(ds) && AllSized(Gang(ds, |ds|))
    requires k < |Order(ds)| && q < |Order(ds)| && Order(ds)[k].key == Order(ds)[q].key
    ensures k == q
  {
    OrderIsSound(ds);
    KeyIdentifies(Order(ds), k, q);
  }

  lemma {:induction false} KeyIdentifies(o: seq<Interface>, k: nat, q: nat)
    requires DistinctKeys(o) && k < |o| && q < |o| && o[k].key == o[q].key
    ensures k == q
  {
  }

  // ---------------------------------------------------------------------------------------------------------
  // Registers supplied by default
  // ---------------------------------------------------------------------------------------------------------

  lemma {:induction false} SingleShared(ds: seq<AxiDevice>, gs: seq<nat>, k: nat)
    requires Registered(ds) && Indexes(gs, ds) && k <= |gs|
    requires forall p :: 0 <= p < |gs| ==> SingleRegister(ds[gs[p]])
    ensures |SharedRegisters(ds, gs, k)| == k
    ensures forall p {:trigger SharedRegisters(ds, gs, k)[p]} :: 0 <= p < k ==>
              SharedRegisters(ds, gs, k)[p] == Register(ds[gs[p]].regname, ds[gs[p]].nbytes, Offset(ds, gs, p))
  {
    if k > 0 {
      SingleShared(ds, gs, k - 1);
      assert SingleRegister(ds[gs[k - 1]]);
      assert Offset(ds, gs, 0) == 0;
    }
  }

  lemma {:induction false} LastOffsetAt(regs: seq<Register>, p: nat)
    requires p < |regs| && forall q :: 0 <= q < |regs| && q != p ==> regs[q].name != regs[p].name
    ensures LastOffset(regs, regs[p].name) == Some(regs[p].offset)
  {
    if p < |regs| - 1 {
      LastOffsetAt(regs[..|regs| - 1], p);
    }
  }

  /** A ganged device with the register supplied by default is found where the sizes before it end. */
  lemma {:induction false} SingleSpot(ds: seq<AxiDevice>, i: nat) returns (p: nat)
    requires Registered(ds) && GangedAreSingle(ds) && i < |ds| && i in GangList(ds, |ds|)
    ensures Indexes(GangList(ds, |ds|), ds) && p < |GangList(ds, |ds|)| && GangList(ds, |ds|)[p] == i
    ensures Spot(ds, i) == Some(Offset(ds, GangList(ds, |ds|), p))
  {
    var gs := GangList(ds, |ds|);
    GangListMembers(ds, |ds|);
    p :| 0 <= p < |gs| && gs[p] == i;
    forall q | 0 <= q < |gs| ensures SingleRegister(ds[gs[q]]) {
      assert gs[q] in gs;
    }
    SingleShared(ds, gs, |gs|);
    var regs := Shared(ds);
    forall q | 0 <= q < |gs| && q != p ensures regs[q].name != regs[p].name {
      assert gs[q] != gs[p] by { if q < p { assert gs[q] < gs[p]; } else { assert gs[p] < gs[q]; } }
      NamesDiffer(ds, gs[q], gs[p]);
    }
    LastOffsetAt(regs, p);
  }

  lemma {:induction false} OffsetStep(ds: seq<AxiDevice>, gs: seq<nat>, p: nat, q: nat)
    requires AllNonEmpty(ds) && Indexes(gs, ds) && p < q <= |gs|
    ensures 0 <= Offset(ds, gs, p) && Offset(ds, gs, p) + ds[gs[p]].nbytes <= Offset(ds, gs, q)
  {
    OffsetGrows(ds, gs, 0, p);
    OffsetGrows(ds, gs, p + 1, q);
  }

  /** With the register that registration supplies by default the spots tile the shared interface. */
  lemma {:induction false} DefaultRegistersFit(ds: seq<AxiDevice>)
    requires Registered(ds) && AllNonEmpty(ds) && GangedAreSingle(ds)
    ensures SpotsFit(ds)
  {
    forall i | 0 <= i < |ds| && ds[i].Ganged() && Spot(ds, i).Some?
      ensures SharedSize(ds) >= 1 && 0 <= Spot(ds, i).value && Spot(ds, i).value + ds[i].nbytes <= CeilPow2(SharedSize(ds))
    {
      SingleFits(ds, i);
    }
    forall i, j | 0 <= i < |ds| && 0 <= j < |ds| && i != j && ds[i].Ganged() && ds[j].Ganged() &&
                  Spot(ds, i).Some? && Spot(ds, j).Some?
      ensures Apart(Spot(ds, i).value, ds[i].nbytes, Spot(ds, j).value, ds[j].nbytes)
    {
      SinglesApart(ds, i, j);
    }
  }

  lemma {:induction false} SingleFits(ds: seq<AxiDevice>, i: nat)
    requires Registered(ds) && AllNonEmpty(ds) && GangedAreSingle(ds) && i < |ds| && i in GangList(ds, |ds|)
    ensures Spot(ds, i).Some? && 0 <= Spot(ds, i).value && Spot(ds, i).value + ds[i].nbytes <= SharedSize(ds)
  {
    var p := SingleSpot(ds, i);
    OffsetStep(ds, GangList(ds, |ds|), p, |GangList(ds, |ds|)|);
  }

  lemma {:induction false} SinglesApart(ds: seq<AxiDevice>, i: nat, j: nat)
    requires Registered(ds) && AllNonEmpty(ds) && GangedAreSingle(ds) && i < |ds| && j < |ds| && i != j
    requires i in GangList(ds, |ds|) && j in GangList(ds, |ds|)
    ensures Spot(ds, i).Some? && Spot(ds, j).Some?
    ensures Apart(Spot(ds, i).value, ds[i].nbytes, Spot(ds, j).value, ds[j].nbytes)
  {
    var gs := GangList(ds, |ds|);
    var p := SingleSpot(ds, i);
    var q := SingleSpot(ds, j);
    if p < q { OffsetStep(ds, gs, p, q); } else { OffsetStep(ds, gs, q, p); }
  }

  lemma {:induction false} RelativesAligned(o: seq<Interface>, a: int)
    requires a > 0 && NaturallyAligned(Sizes(o), a)
    ensures forall x :: x in WithAddresses(o, a) ==> x.size > 0 && x.relative % x.size == 0
  {
    forall x | x in WithAddresses(o, a) ensures x.size > 0 && x.relative % x.size == 0 {
      var k :| 0 <= k < |o| && WithAddresses(o, a)[k] == x;
      assert Sizes(o)[k] > 0 && Address(Sizes(o), k, a) % Sizes(o)[k] == 0;
      assert x.relative == Address(Sizes(o), k, a) && x.size == Sizes(o)[k];
    }
  }

  /** With a power-of-two alignment every interface starts on a multiple of its own size, and the whole map is shorter
      than twice the bytes it was asked to hold if no interface is smaller than the alignment. */
  lemma {:induction false} MapAlignedAndTight(ds: seq<AxiDevice>, a: int)
    requires IsPow2(a) && a > 0 && Registered(ds) && AllNonEmpty(ds)
    ensures AllSized(Gang(ds, |ds|)) && Descending(Sizes(Order(ds))) && NaturallyAligned(Sizes(Order(ds)), a)
    ensures (ds != [] && forall k :: 0 <= k < |Gang(ds, |ds|)| ==> Gang(ds, |ds|)[k].size >= a) ==>
              Address(Sizes(Order(ds)), |Order(ds)|, a) < 2 * Sum(Sizes(Gang(ds, |ds|)))
    ensures forall x :: x in WithAddresses(Order(ds), a) ==> x.size > 0 && x.relative % x.size == 0
  {
    OrderSizes(ds);
    PackedNaturally(Sizes(Order(ds)), a);
    RelativesAligned(Order(ds), a);
    var g := Gang(ds, |ds|);
    if ds != [] && forall k :: 0 <= k < |g| ==> g[k].size >= a {
      var r := RoundEntries(g);
      assert g != [];
      assert Rounded(Sizes(g)) == Sizes(r);
      OrderedPermutes(r);
      SizesOfPermutation(r, Order(ds));
      ExtentBelowDouble(Sizes(g), Sizes(Order(ds)), a);
    }
  }

  // ---------------------------------------------------------------------------------------------------------
  // Lost devices
  // ---------------------------------------------------------------------------------------------------------

  lemma {:induction false} OrderKeepsUnlisted(g: seq<Interface>, i: nat)
    requires AllSized(g) && Unlisted(g, i)
    ensures Unlisted(Ordered(RoundEntries(g)), i)
  {
    var r := RoundEntries(g);
    forall k | 0 <= k < |r| ensures i !in Ordered(r)[k].devices {
      SameMembers(r, Ordered(r)[k]);
      var q :| 0 <= q < |r| && r[q] == Ordered(r)[k];
      assert i !in g[q].devices;
    }
  }

  ghost predicate HasName(regs: seq<Register>, name: string) {
    exists p :: 0 <= p < |regs| && regs[p].name == name
  }

  /** Some device under the shared key brings a register of the name. */
  ghost predicate Brought(ds: seq<AxiDevice>, name: string) {
    exists g :: 0 <= g < |ds| && ds[g].Ganged() && HasName(ds[g].memoryMap, name)
  }

  lemma {:induction false} LastOffsetIff(regs: seq<Register>, name: string)
    ensures LastOffset(regs, name).Some? <==> HasName(regs, name)
  {
    if regs != [] {
      var init, last := regs[..|regs| - 1], regs[|regs| - 1];
      LastOffsetIff(init, name);
      if HasName(init, name) {
        var p :| 0 <= p < |init| && init[p].name == name;
        assert regs[p].name == name;
      }
      if HasName(regs, name) && last.name != name {
        var p :| 0 <= p < |regs| && regs[p].name == name;
        assert init[p].name == name;
      }
    }
  }

  lemma {:induction false} HasNameConcat(a: seq<Register>, b: seq<Register>, name: string)
    ensures HasName(a + b, name) <==> HasName(a, name) || HasName(b, name)
  {
    if HasName(a, name) {
      var p :| 0 <= p < |a| && a[p].name == name;
      assert (a + b)[p].name == name;
    }
    if HasName(b, name) {
      var p :| 0 <= p < |b| && b[p].name == name;
      assert (a + b)[|a| + p].name == name;
    }
  }

  lemma {:induction false} HasNameMoved(d: AxiDevice, offset: int, name: string)
    requires d.memoryMap != []
    ensures HasName(Moved(d, offset), name) <==> HasName(d.memoryMap, name)
  {
    var regs := Moved(d, offset);
    if HasName(regs, name) {
      var p :| 0 <= p < |regs| && regs[p].name == name;
      assert d.memoryMap[p].name == name;
    }
    if HasName(d.memoryMap, name) {
      var p :| 0 <= p < |d.memoryMap| && d.memoryMap[p].name == name;
      assert regs[p].name == name;
    }
  }

  /** The shared registers have the names the listed devices bring. */
  lemma {:induction false} SharedNames(ds: seq<AxiDevice>, gs: seq<nat>, k: nat, name: string)
    requires Registered(ds) && Indexes(gs, ds) && k <= |gs|
    ensures HasName(SharedRegisters(ds, gs, k), name) <==> exists q :: 0 <= q < k && HasName(ds[gs[q]].memoryMap, name)
  {
    if k == 1 {
      assert HasName(SharedRegisters(ds, gs, 1), name) <==> HasName(ds[gs[0]].memoryMap, name);
    } else if k > 1 {
      SharedNames(ds, gs, k - 1, name);
      HasNameConcat(SharedRegisters(ds, gs, k - 1), Moved(ds[gs[k - 1]], Offset(ds, gs, k - 1)), name);
      HasNameMoved(ds[gs[k - 1]], Offset(ds, gs, k - 1), name);
    }
  }

  /** No device is displaced if and only if no device of another kind called sw_reg follows a software register. */
  lemma {:induction false} AllListedIff(ds: seq<AxiDevice>)
    requires Registered(ds)
    ensures (forall i :: 0 <= i < |ds| ==> Listed(ds, i)) <==> NoClobber(ds)
  {
    GangListMembers(ds, |ds|);
    if NoClobber(ds) {
      forall i | 0 <= i < |ds| ensures Listed(ds, i) {
        assert forall j :: i < j < |ds| ==> ds[i].regname != ds[j].regname;
      }
    } else {
      var i, j :| 0 <= i < j < |ds| && ds[i].IsSwReg() && ds[j].regname == SW_REG && !ds[j].IsSwReg();
      assert Displaced(ds, |ds|, i);
      assert !Listed(ds, i);
    }
  }

  /** With all devices listed, a ganged device has a spot exactly if some ganged device brings a register of its name. */
  lemma {:induction false} SpotIffBrought(ds: seq<AxiDevice>, i: nat)
    requires Registered(ds) && i < |ds| && ds[i].Ganged() && forall q :: 0 <= q < |ds| ==> Listed(ds, q)
    ensures Spot(ds, i).Some? <==> Brought(ds, ds[i].regname)
  {
    var gs, name := GangList(ds, |ds|), ds[i].regname;
    GangListMembers(ds, |ds|);
    LastOffsetIff(Shared(ds), name);
    SharedNames(ds, gs, |gs|, name);
    if Brought(ds, name) {
      var g :| 0 <= g < |ds| && ds[g].Ganged() && HasName(ds[g].memoryMap, name);
      assert Listed(ds, g);
      var q :| 0 <= q < |gs| && gs[q] == g;
      assert HasName(ds[gs[q]].memoryMap, name);
    }
    if q :| 0 <= q < |gs| && HasName(ds[gs[q]].memoryMap, name) {
      assert gs[q] in gs;
    }
  }

  /** Every registered device receives an address if and only if no device of another kind called sw_reg is registered
      after a software register, and every ganged device finds a register of its name among those of the ganged
      devices. */
  lemma {:induction false} AllAddressedIff(ds: seq<AxiDevice>, base: int, a: int)
    requires a > 0 && Registered(ds) && AllNonEmpty(ds)
    requires forall i :: 0 <= i < |ds| ==> ds[i].baseAddr == None
    ensures AllSized(Gang(ds, |ds|))
    ensures (forall i :: 0 <= i < |ds| ==> Addressed(ds, base, a)[i].baseAddr.Some?) <==>
              NoClobber(ds) && forall i :: 0 <= i < |ds| && ds[i].Ganged() ==> Brought(ds, ds[i].regname)
  {
    GangSized(ds, |ds|);
    AllListedIff(ds);
    forall i | 0 <= i < |ds| ensures Addressed(ds, base, a)[i].baseAddr.Some? <==> Spot(ds, i).Some? {
      AddressedIffSpot(ds, base, a, i);
    }
    forall i | 0 <= i < |ds| && Spot(ds, i).Some? ensures Listed(ds, i) {
    }
    if NoClobber(ds) {
      forall i | 0 <= i < |ds| && ds[i].Ganged() ensures Spot(ds, i).Some? <==> Brought(ds, ds[i].regname) {
        SpotIffBrought(ds, i);
      }
    }
  }

  /** A device displaced from the shared key never receives an address. */
  lemma {:induction false} ClobberedIsUnaddressed(ds: seq<AxiDevice>, base: int, a: int, i: nat, j: nat)
    requires a > 0 && Registered(ds) && AllSized(Gang(ds, |ds|)) && i < j < |ds|
    requires ds[i].IsSwReg() && !ds[j].IsSwReg() && ds[j].regname == SW_REG && ds[i].baseAddr == None
    ensures Addressed(ds, base, a)[i].baseAddr == None
  {
    GangListMembers(ds, |ds|);
    assert Displaced(ds, |ds|, i);
    UnlistedAddress(ds, base, a, i);
  }

  /** A software register, then a block RAM called sw_reg: the register is lost. */
  lemma {:induction false} BramCalledSwReg(base: int, a: int)
    requires a > 0
    ensures var ds := [AxiDevice("ctrl", 4, TYPECODE_SWREG, "", [Register("ctrl", 4, 0)], None),
                       AxiDevice(SW_REG, 4096, TYPECODE_BRAM, "", [Register(SW_REG, 4096, 0)], None)];
            Registered(ds) && AllSized(Gang(ds, 2)) && Addressed(ds, base, a)[0].baseAddr == None
  {
    var ds := [AxiDevice("ctrl", 4, TYPECODE_SWREG, "", [Register("ctrl", 4, 0)], None),
               AxiDevice(SW_REG, 4096, TYPECODE_BRAM, "", [Register(SW_REG, 4096, 0)], None)];
    assert "ctrl" != SW_REG by { assert "ctrl"[0] == 'c' && SW_REG[0] == 's'; }
    GangSized(ds, 2);
    ClobberedIsUnaddressed(ds, base, a, 0, 1);
  }

  /** A software register whose list carries another name is never addressed either. */
  lemma {:induction false} UnnamedRegister(base: int, a: int)
    requires a > 0
    ensures var ds := [AxiDevice("ctrl", 4, TYPECODE_SWREG, "", [Register("other", 4, 0)], None)];
            Registered(ds) && NoClobber(ds) && AllSized(Gang(ds, 1)) && Addressed(ds, base, a)[0].baseAddr == None
  {
    var ds := [AxiDevice("ctrl", 4, TYPECODE_SWREG, "", [Register("other", 4, 0)], None)];
    assert "ctrl" != "other" by { assert |"ctrl"| != |"other"|; }
    GangSized(ds, 1);
    AllAddressedIff(ds, base, a);
    assert !Brought(ds, "ctrl");
    assert Addressed(ds, base, a)[0].baseAddr.None?;
  }

  /** Two software registers, the second bringing a second register with the first one's name: they share an address. */
  lemma {:induction false} BorrowedName(base: int, a: int)
    requires a > 0
    ensures var ds := [AxiDevice("a", 4, TYPECODE_SWREG, "", [Register("a", 4, 0)], None),
                       AxiDevice("b", 4, TYPECODE_SWREG, "", [Register("b", 4, 0), Register("a", 4, 4)], None)];
            Registered(ds) && AllSized(Gang(ds, 2)) && !LaidOut(ds, base, a)
  {
    var d := AxiDevice("a", 4, TYPECODE_SWREG, "", [Register("a", 4, 0)], None);
    var e := AxiDevice("b", 4, TYPECODE_SWREG, "", [Register("b", 4, 0), Register("a", 4, 4)], None);
    var ds := [d, e];
    GangListMembers(ds, 2);
    assert GangList(ds, 0) == [] && GangList(ds, 1) == [0] && GangList(ds, 2) == [0, 1];
    var gs := [0, 1];
    assert Offset(ds, gs, 0) == 0 && Offset(ds, gs, 1) == 4;
    var regs := [Register("a", 4, 0), Register("b", 4, 4), Register("a", 4, 4)];
    assert SharedRegisters(ds, gs, 1) == d.memoryMap && Moved(e, 4) == [Register("b", 4, 4), Register("a", 4, 4)];
    assert Shared(ds) == regs;
    assert regs[..2] == [Register("a", 4, 0), Register("b", 4, 4)];
    assert LastOffset(regs[..2], "b") == Some(4) && LastOffset(regs, "b") == Some(4) && LastOffset(regs, "a") == Some(4);
    assert Spot(ds, 0) == Some(4) && Spot(ds, 1) == Some(4);
    LaidOutIff(ds, base, a);
  }
}

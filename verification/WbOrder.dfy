/** The order in which the two passes visit the devices, in terms of where each device sits in the instance dictionary:
    block by block, instance by instance, device by device. */
module WbOrder {
  import opened WbSlots

  /** Device number `dev` of instance number `inst` of block number `block`. */
  datatype Location = Location(block: nat, inst: nat, dev: nat)

  ghost predicate In(bs: seq<Block>, p: Location) {
    && p.block < |bs| && p.inst < |bs[p.block].instances|
    && p.dev < |bs[p.block].instances[p.inst].wbDevices|
  }

  ghost function DeviceAt(bs: seq<Block>, p: Location): WbDevice
    requires In(bs, p)
  {
    bs[p.block].instances[p.inst].wbDevices[p.dev]
  }

  /** The device, under the identifier made of its instance's name and its number there. */
  ghost function SlotAt(bs: seq<Block>, p: Location): Slot
    requires In(bs, p)
  {
    Slot(WbId(Upper(bs[p.block].instances[p.inst].name), p.dev), DeviceAt(bs, p))
  }

  ghost predicate Precedes(p: Location, q: Location) {
    p.block < q.block || (p.block == q.block && (p.inst < q.inst || (p.inst == q.inst && p.dev < q.dev)))
  }

  /** The slots found along the locations ps, which rise. */
  ghost predicate Tour(v: seq<Slot>, bs: seq<Block>, ps: seq<Location>) {
    && |ps| == |v|
    && (forall k :: 0 <= k < |v| ==> In(bs, ps[k]) && v[k] == SlotAt(bs, ps[k]))
    && (forall k, l :: 0 <= k < l < |ps| ==> Precedes(ps[k], ps[l]))
  }

  /** A tour of everything that comes before a location. */
  ghost predicate TourTo(v: seq<Slot>, bs: seq<Block>, ps: seq<Location>, end: Location) {
    && Tour(v, bs, ps)
    && forall p :: p in ps <==> In(bs, p) && Precedes(p, end)
  }

  /** A tour of all devices that a pass wants. */
  ghost predicate TourOf(v: seq<Slot>, bs: seq<Block>, ps: seq<Location>, fixed: bool) {
    && Tour(v, bs, ps)
    && forall p :: p in ps <==> In(bs, p) && (fixed <==> DeviceAt(bs, p).request.offset != -1)
  }

  lemma {:induction false} TourJoin(v: seq<Slot>, w: seq<Slot>, bs: seq<Block>, ps: seq<Location>, qs: seq<Location>)
    requires Tour(v, bs, ps) && Tour(w, bs, qs)
    requires forall k, l :: 0 <= k < |ps| && 0 <= l < |qs| ==> Precedes(ps[k], qs[l])
    ensures Tour(v + w, bs, ps + qs)
  {
  }

  ghost function Row(b: nat, i: nat, n: nat): (ps: seq<Location>)
    ensures |ps| == n && forall k :: 0 <= k < n ==> ps[k] == Location(b, i, k)
  {
    seq(n, k requires 0 <= k < n => Location(b, i, k))
  }

  /** One more instance. */
  lemma {:induction false} TourInstance(v: seq<Slot>, bs: seq<Block>, ps: seq<Location>, b: nat, i: nat)
      returns (qs: seq<Location>)
    requires b < |bs| && i < |bs[b].instances| && TourTo(v, bs, ps, Location(b, i, 0))
    ensures TourTo(v + SlotsOf(bs[b].instances[i]), bs, qs, Location(b, i + 1, 0))
  {
    var inst := bs[b].instances[i];
    var row := Row(b, i, |inst.wbDevices|);
    qs := ps + row;
    forall k, l | 0 <= k < |ps| && 0 <= l < |row| ensures Precedes(ps[k], row[l]) {
      assert ps[k] in ps;
    }
    TourJoin(v, SlotsOf(inst), bs, ps, row);
    forall p ensures p in qs <==> In(bs, p) && Precedes(p, Location(b, i + 1, 0)) {
      if In(bs, p) && p.block == b && p.inst == i {
        assert row[p.dev] == p;
      }
      assert p in qs <==> p in ps || p in row;
    }
  }

  /** v, then the slots of the first i instances. */
  ghost function UpTo(v: seq<Slot>, insts: seq<Instance>, i: nat): seq<Slot>
    requires i <= |insts|
  {
    v + Slots(insts[..i])
  }

  lemma {:induction false} UpToNext(v: seq<Slot>, insts: seq<Instance>, i: nat)
    requires i < |insts|
    ensures UpTo(v, insts, i + 1) == UpTo(v, insts, i) + SlotsOf(insts[i])
  {
    assert insts[..i + 1][..i] == insts[..i];
  }

  lemma {:induction false} UpToEnds(v: seq<Slot>, insts: seq<Instance>)
    ensures UpTo(v, insts, 0) == v && UpTo(v, insts, |insts|) == v + Slots(insts)
  {
    assert insts[..|insts|] == insts;
  }

  /** One more block. */
  lemma {:induction false} TourBlock(v: seq<Slot>, bs: seq<Block>, ps: seq<Location>, b: nat) returns (qs: seq<Location>)
    requires b < |bs| && TourTo(v, bs, ps, Location(b, 0, 0))
    ensures TourTo(v + Slots(bs[b].instances), bs, qs, Location(b + 1, 0, 0))
  {
    var insts := bs[b].instances;
    qs := ps;
    UpToEnds(v, insts);
    for i := 0 to |insts|
      invariant TourTo(UpTo(v, insts, i), bs, qs, Location(b, i, 0))
    {
      UpToNext(v, insts, i);
      qs := TourInstance(UpTo(v, insts, i), bs, qs, b, i);
    }
    BlockEnds(v + Slots(insts), bs, qs, b);
  }

  lemma {:induction false} BlockEnds(v: seq<Slot>, bs: seq<Block>, ps: seq<Location>, b: nat)
    requires b < |bs| && TourTo(v, bs, ps, Location(b, |bs[b].instances|, 0))
    ensures TourTo(v, bs, ps, Location(b + 1, 0, 0))
  {
  }

  lemma {:induction false} SlotsAppend(a: seq<Instance>, b: seq<Instance>)
    ensures Slots(a + b) == Slots(a) + Slots(b)
    decreases |b|
  {
    if b == [] {
      assert a + b == a;
    } else {
      assert (a + b)[..|a + b| - 1] == a + b[..|b| - 1];
      SlotsAppend(a, b[..|b| - 1]);
    }
  }

  /** All devices, in dictionary order. */
  lemma {:induction false} TourAll(bs: seq<Block>, n: nat) returns (ps: seq<Location>)
    requires n <= |bs|
    ensures TourTo(Slots(InstancesOf(bs[..n])), bs, ps, Location(n, 0, 0))
  {
    if n == 0 {
      ps := [];
    } else {
      ps := TourAll(bs, n - 1);
      assert bs[..n][..n - 1] == bs[..n - 1];
      SlotsAppend(InstancesOf(bs[..n - 1]), bs[n - 1].instances);
      ps := TourBlock(Slots(InstancesOf(bs[..n - 1])), bs, ps, n - 1);
    }
  }

  /** The wanted part of a tour. */
  lemma {:induction false} TourWanted(v: seq<Slot>, bs: seq<Block>, ps: seq<Location>, fixed: bool)
      returns (qs: seq<Location>)
    requires Tour(v, bs, ps)
    ensures Tour(Wanted(v, fixed), bs, qs)
    ensures forall p :: p in qs <==> p in ps && In(bs, p) && DeviceAt(bs, p).request.Fixed() == fixed
  {
    if v == [] {
      qs := [];
    } else {
      var n := |v| - 1;
      var init := TourWanted(v[..n], bs, ps[..n], fixed);
      assert ps == ps[..n] + [ps[n]];
      qs := init;
      if v[n].device.request.Fixed() == fixed {
        forall k | 0 <= k < |init| ensures Precedes(init[k], ps[n]) {
          assert init[k] in ps[..n];
        }
        TourJoin(Wanted(v[..n], fixed), [v[n]], bs, init, [ps[n]]);
        qs := init + [ps[n]];
      }
    }
  }

  /** A pass visits exactly the devices it wants, block by block, instance by instance, device by device. */
  lemma {:induction false} PassOrder(bs: seq<Block>, fixed: bool) returns (ps: seq<Location>)
    ensures TourOf(Wanted(Slots(InstancesOf(bs)), fixed), bs, ps, fixed)
  {
    var all := TourAll(bs, |bs|);
    assert bs[..|bs|] == bs;
    ps := TourWanted(Slots(InstancesOf(bs)), bs, all, fixed);
  }

  /** The first pass walks over the blocks in name order, the second over the blocks as they were entered. */
  lemma {:induction false} VisitOrder(bs: seq<Block>) returns (first: seq<Location>, second: seq<Location>)
    ensures TourOf(FirstVisit(bs), SortBlocks(bs), first, true)
    ensures TourOf(SecondVisit(bs), bs, second, false)
  {
    first := PassOrder(SortBlocks(bs), true);
    second := PassOrder(bs, false);
  }

  /** Every device of the module is visited. */
  lemma {:induction false} AllVisited(bs: seq<Block>, d: WbDevice) returns (k: nat)
    requires d in DevicesOf(InstancesOf(bs))
    ensures k < |Visit(bs)| && Visit(bs)[k].device == d
    ensures k < |FirstVisit(bs)| <==> d.request.Fixed()
  {
    SameInstances(bs);
    if d.request.Fixed() {
      k := VisitedBy(SortBlocks(bs), d);
    } else {
      k := VisitedBy(bs, d);
      k := |FirstVisit(bs)| + k;
    }
  }

  lemma {:induction false} VisitedBy(bs: seq<Block>, d: WbDevice) returns (k: nat)
    requires d in DevicesOf(InstancesOf(bs))
    ensures var v := Wanted(Slots(InstancesOf(bs)), d.request.Fixed()); k < |v| && v[k].device == d
  {
    var ps := PassOrder(bs, d.request.Fixed());
    var p := Located(bs, d);
    assert p in ps;
    k :| 0 <= k < |ps| && ps[k] == p;
  }

  lemma {:induction false} Located(bs: seq<Block>, d: WbDevice) returns (p: Location)
    requires d in DevicesOf(InstancesOf(bs))
    ensures In(bs, p) && DeviceAt(bs, p) == d
  {
    var insts := InstancesOf(bs);
    var i, n :| 0 <= i < |insts| && 0 <= n < |insts[i].wbDevices| && insts[i].wbDevices[n] == d;
    InstanceMember(bs, insts[i]);
    var b :| 0 <= b < |bs| && insts[i] in bs[b].instances;
    var q :| 0 <= q < |bs[b].instances| && bs[b].instances[q] == insts[i];
    p := Location(b, q, n);
  }
}

/** The module object that runs `wb_compute`: the two passes, the sort and the decode tables. */
module WbModule {
  import opened Arith
  import opened WbPlacement
  import opened WbArbiter
  import opened WbDecode
  import opened WbSystem
  import opened WbSlots
  import opened WbOrder
  import opened Wrappers

  /** What is written into the top level: one pair of tables, or a primary pair and a generated master arbiter. */
  datatype Tables = NoTables | Flat(table: Table) | Hierarchical(master: MasterArbiter)

  /** The devices' windows, in list order. */
  ghost predicate Ranged(ds: seq<WbDevice>, ws: seq<Window>)
    reads ds
  {
    |ws| == |ds| && forall k :: 0 <= k < |ds| ==> ds[k].Range() == ws[k]
  }

  function TablesFor(ws: seq<Window>, max: Option<int>): Tables
    requires max.Some? ==> max.value > 0
  {
    if max.None? then Flat(FlatTable(ws)) else Hierarchical(Hierarchy(ws, max.value))
  }

  lemma {:induction false} InsertAt(ts: seq<Window>, w: Window, k: nat)
    requires k <= |ts|
    requires forall m :: k <= m < |ts| ==> ts[m].base > w.base
    requires k > 0 ==> ts[k - 1].base <= w.base
    ensures Insert(ts, w) == ts[..k] + [w] + ts[k..]
  {
    if k < |ts| {
      InsertAt(ts[..|ts| - 1], w, k);
    }
  }

  lemma {:induction false} InsertedMembers(ds: seq<WbDevice>, d: WbDevice, k: nat)
    requires k <= |ds|
    ensures multiset(ds[..k] + [d] + ds[k..]) == multiset(ds) + multiset{d}
  {
    assert ds == ds[..k] + ds[k..];
  }

  lemma {:induction false} InsertedRanges(ds: seq<WbDevice>, ts: seq<Window>, d: WbDevice, k: nat)
    requires k <= |ds| && Ranged(ds, ts)
    ensures Ranged(ds[..k] + [d] + ds[k..], ts[..k] + [d.Range()] + ts[k..])
  {
  }

  /** sorted(devices, key = base_addr) */
  method SortDevices(ds: seq<WbDevice>, ghost ws: seq<Window>) returns (sorted: seq<WbDevice>)
    requires Ranged(ds, ws)
    ensures Ranged(sorted, SortByBase(ws))
    ensures multiset(sorted) == multiset(ds)
  {
    if ds == [] {
      sorted := [];
    } else {
      var n := |ds| - 1;
      sorted := SortDevices(ds[..n], ws[..n]);
      sorted := InsertDevice(sorted, ds[n], SortByBase(ws[..n]));
      assert ds == ds[..n] + [ds[n]];
    }
  }

  method InsertDevice(sorted: seq<WbDevice>, d: WbDevice, ghost ts: seq<Window>) returns (r: seq<WbDevice>)
    requires Ranged(sorted, ts)
    ensures Ranged(r, Insert(ts, d.Range()))
    ensures multiset(r) == multiset(sorted) + multiset{d}
  {
    var k := |sorted|;
    while k > 0 && sorted[k - 1].baseAddr > d.baseAddr
      invariant 0 <= k <= |sorted| && forall m :: k <= m < |sorted| ==> ts[m].base > d.baseAddr
    {
      k := k - 1;
    }
    InsertAt(ts, d.Range(), k);
    InsertedMembers(sorted, d, k);
    InsertedRanges(sorted, ts, d, k);
    r := sorted[..k] + [d] + sorted[k..];
  }

  /** Every slot has the window the placement rules give it, its localparam is its visit index, and its address word is
      that index divided by the chunk size. */
  ghost predicate PlacedAs(v: seq<Slot>, params: map<WbId, int>, slaves: nat, max: Option<int>, baseAddr: int,
                           alignment: int)
    requires alignment > 0 && (max.Some? ==> max.value > 0)
    reads set x | x in v :: x.device
  {
    && Addressed(v, Place(Requests(v), baseAddr, alignment)) && Numbered(v, params) && slaves == |v|
    && Arbitrated(v, 0, max) && OneWord(set x | x in v :: x.device, max)
  }

  /** The devices are those of the slots in address order, and the tables describe their windows in that order. */
  ghost predicate Emitted(v: seq<Slot>, devices: seq<WbDevice>, tables: Tables, max: Option<int>, baseAddr: int,
                          alignment: int)
    requires alignment > 0 && (max.Some? ==> max.value > 0)
    reads devices
  {
    var ts := SortByBase(Place(Requests(v), baseAddr, alignment));
    multiset(devices) == multiset(Devices(v)) && Ranged(devices, ts) && tables == TablesFor(ts, max)
  }

  /** What a pass has visited before it starts, and when it is through. */
  lemma {:induction false} PassEnds(v: seq<Slot>, insts: seq<Instance>, fixed: bool)
    ensures v + Wanted(Slots(insts[..0]), fixed) == v
    ensures insts[..|insts|] == insts
  {
  }

  // ---------------------------------------------------------------------------------------------------------
  // What each device is given
  // ---------------------------------------------------------------------------------------------------------

  /** Every device takes the least multiple of the alignment that holds it; one that asked for an offset starts there. */
  ghost predicate RequestsHonoured(ds: set<WbDevice>, baseAddr: int, alignment: int)
    requires alignment > 0
    reads ds
  {
    forall d :: d in ds ==>
      && LeastMultiple(d.highAddr + 1 - d.baseAddr, d.request.nbytes, alignment)
      && (d.request.offset != -1 ==> d.baseAddr == baseAddr + d.request.offset)
  }

  /** The other devices follow one another, the first one from where the requested ones end. */
  ghost predicate PackedBehind(first: seq<Slot>, second: seq<Slot>, baseAddr: int, alignment: int)
    reads set x | x in first :: x.device
    reads set x | x in second :: x.device
  {
    && (forall k :: 0 < k < |second| ==> second[k].device.baseAddr == second[k - 1].device.highAddr + 1)
    && (second != [] ==> EndOf(first, baseAddr, alignment, second[0].device.baseAddr))
  }

  /** p is the base address or follows a requested device, and none ends above it. A device ends on p itself only if p had
      been reached before it was placed, which cannot happen to aligned requests with an alignment of at least 2. */
  ghost predicate EndOf(first: seq<Slot>, baseAddr: int, alignment: int, p: int)
    reads set x | x in first :: x.device
  {
    && baseAddr <= p
    && (p == baseAddr || exists i :: 0 <= i < |first| && first[i].device.highAddr == p - 1)
    && (forall i :: 0 <= i < |first| ==> first[i].device.highAddr <= p)
    && (forall i :: 0 <= i < |first| && first[i].device.highAddr == p ==>
          p == baseAddr || exists j :: 0 <= j < i && first[j].device.highAddr == p - 1)
    && (alignment >= 2 && (forall i :: 0 <= i < |first| ==> first[i].device.request.offset % alignment == 0) ==>
          forall i :: 0 <= i < |first| ==> first[i].device.highAddr < p)
  }

  lemma {:induction false} EndOfRequested(first: seq<Slot>, second: seq<Slot>, ws: seq<Window>, origin: int, a: int)
    requires a > 0 && second != [] && Granted(Requests(first), Requests(second), ws, origin, a)
    requires forall k :: 0 <= k < |first| ==> first[k].device.highAddr == ws[k].high
    ensures EndOf(first, origin, a, ws[|first|].base)
  {
    var p := ws[|first|].base;
    assert EndsAt(ws, |first|, origin, p);
    forall i | 0 <= i <= |first| && Follows(ws, i, p)
      ensures exists j :: 0 <= j < i && first[j].device.highAddr == p - 1
    {
      var j :| 0 <= j < i && ws[j].high == p - 1;
      assert first[j].device.highAddr == p - 1;
    }
    if a >= 2 && forall i :: 0 <= i < |first| ==> first[i].device.request.offset % a == 0 {
      RequestedBelow(first, second, ws, origin, a);
    }
  }

  lemma {:induction false} RequestedBelow(first: seq<Slot>, second: seq<Slot>, ws: seq<Window>, origin: int, a: int)
    requires a >= 2 && second != [] && Granted(Requests(first), Requests(second), ws, origin, a)
    requires forall k :: 0 <= k < |first| ==> first[k].device.highAddr == ws[k].high
    requires forall k :: 0 <= k < |first| ==> first[k].device.request.offset % a == 0
    ensures forall k :: 0 <= k < |first| ==> first[k].device.highAddr < ws[|first|].base
  {
    var rs, us := Requests(first), Requests(second);
    assert AlignedOffsets(rs, a);
    forall k | 0 <= k < |first| ensures first[k].device.highAddr < ws[|first|].base {
      GrantedBelow(rs, us, ws, origin, a, k);
    }
  }

  /** Devices in windows that grant the requests. */
  lemma {:induction false} GrantedIsPacked(first: seq<Slot>, second: seq<Slot>, ws: seq<Window>, origin: int, a: int)
    requires a > 0 && Granted(Requests(first), Requests(second), ws, origin, a) && Addressed(first + second, ws)
    ensures PackedBehind(first, second, origin, a)
  {
    var v := first + second;
    forall k | 0 <= k < |v| ensures v[k].device.baseAddr == ws[k].base && v[k].device.highAddr == ws[k].high {
      assert v[k].device.Range() == ws[k];
    }
    assert forall k :: 0 <= k < |first| ==> v[k] == first[k];
    assert forall k :: 0 <= k < |second| ==> v[|first| + k] == second[k];
    forall k | 0 < k < |second| ensures second[k].device.baseAddr == second[k - 1].device.highAddr + 1 {
      assert ws[|first| + k].base == ws[|first| + k - 1].high + 1;
      assert v[|first| + k - 1] == second[k - 1];
    }
    if second != [] {
      EndOfRequested(first, second, ws, origin, a);
    }
  }

  lemma {:induction false} GrantedIsHonoured(first: seq<Slot>, second: seq<Slot>, ws: seq<Window>, origin: int, a: int,
                                           k: nat)
    requires a > 0 && Granted(Requests(first), Requests(second), ws, origin, a) && Addressed(first + second, ws)
    requires k < |first + second| && (k < |first| <==> (first + second)[k].device.request.Fixed())
    ensures RequestsHonoured({(first + second)[k].device}, origin, a)
  {
    var d := (first + second)[k].device;
    assert d.Range() == ws[k];
    assert (Requests(first) + Requests(second))[k] == d.request;
    if k < |first| {
      assert Requests(first)[k] == d.request;
    }
  }

  /** The placement rules grant the devices of a module what they asked for. */
  lemma {:induction false} PlacementGrants(bs: seq<Block>, baseAddr: int, alignment: int)
    requires alignment > 0 && Addressed(Visit(bs), Place(Requests(Visit(bs)), baseAddr, alignment))
    ensures RequestsHonoured(DevicesOf(InstancesOf(bs)), baseAddr, alignment)
    ensures PackedBehind(FirstVisit(bs), SecondVisit(bs), baseAddr, alignment)
  {
    var first, second := FirstVisit(bs), SecondVisit(bs);
    var ws := Place(Requests(Visit(bs)), baseAddr, alignment);
    VisitRequests(bs);
    PlaceGrants(Requests(first), Requests(second), ws, baseAddr, alignment);
    GrantedIsPacked(first, second, ws, baseAddr, alignment);
    forall d | d in DevicesOf(InstancesOf(bs)) ensures RequestsHonoured({d}, baseAddr, alignment) {
      var k := AllVisited(bs, d);
      GrantedIsHonoured(first, second, ws, baseAddr, alignment, k);
    }
    assert forall d :: d in DevicesOf(InstancesOf(bs)) ==> d in {d};
  }

  class VerilogModule {
    const blocks: seq<Block>
    const maxDevicesPerArb: Option<int>
    var wbDevices: seq<WbDevice>
    var nWbSlaves: nat
    var localparams: map<WbId, int>
    var tables: Tables

    constructor (blocks: seq<Block>, maxDevicesPerArb: Option<int>)
      ensures this.blocks == blocks && this.maxDevicesPerArb == maxDevicesPerArb
      ensures wbDevices == [] && nWbSlaves == 0 && localparams == map[] && tables == NoTables
    {
      this.blocks, this.maxDevicesPerArb := blocks, maxDevicesPerArb;
      wbDevices, nWbSlaves, localparams, tables := [], 0, map[], NoTables;
    }

    /** Nothing has been placed or wired yet. */
    ghost predicate Fresh()
      reads this, InstancesOf(blocks), DevicesOf(InstancesOf(blocks))
    {
      && wbDevices == [] && nWbSlaves == 0 && localparams == map[]
      && (forall i :: 0 <= i < |InstancesOf(blocks)| ==> Before(InstancesOf(blocks)[i], true))
      && OneWord(DevicesOf(InstancesOf(blocks)), maxDevicesPerArb)
    }

    /** The module after visiting the slots `v`, which received the windows `ws`. */
    ghost predicate Visited(v: seq<Slot>, ws: seq<Window>)
      reads this, set x | x in v :: x.device
    {
      && wbDevices == Devices(v)
      && nWbSlaves == |v|
      && Numbered(v, localparams)
      && Addressed(v, ws)
    }

    /** assign_wb_interface: the device's ports are wired to its identifier and its sub-arbiter's address word. Ports are
        write-once, so a suffix that is already wired to another identifier raises. */
    method AssignInterface(inst: Instance, device: WbDevice, n: nat, deviceNum: nat) returns (ok: bool)
      requires maxDevicesPerArb.Some? ==> maxDevicesPerArb.value > 0
      modifies inst`wbIds, inst`wired, device`subArbId
      ensures inst.wbIds == old(inst.wbIds) + [WbId(Upper(inst.name), n)]
      ensures ok <==>
                device.PortSuffix() in old(inst.wired) ==>
                  old(inst.wired)[device.PortSuffix()] == WbId(Upper(inst.name), n)
      ensures ok ==> inst.wired == old(inst.wired)[device.PortSuffix() := WbId(Upper(inst.name), n)]
      ensures device.subArbId ==
                if maxDevicesPerArb.Some? then deviceNum / maxDevicesPerArb.value else old(device.subArbId)
    {
      if maxDevicesPerArb.Some? {
        device.subArbId := deviceNum / maxDevicesPerArb.value;
      }
      var id := WbId(Upper(inst.name), n);
      inst.wbIds := inst.wbIds + [id];
      ok := device.PortSuffix() in inst.wired ==> inst.wired[device.PortSuffix()] == id;
      if ok {
        inst.wired := inst.wired[device.PortSuffix() := id];
      }
    }

    /** Progress of the first inner loop after n devices. */
    ghost predicate Assigned(inst: Instance, n: nat, fixed: bool, ids: seq<WbId>, deviceNum: nat, next: nat)
      requires maxDevicesPerArb.Some? ==> maxDevicesPerArb.value > 0
      requires n <= |inst.wbDevices|
      reads inst, inst.wbDevices
    {
      var w := Wanted(SlotsOf(inst)[..n], fixed);
      && next == deviceNum + |w|
      && inst.wbIds == ids + Ids(w)
      && Wired(inst.wired, WiredSlots(SlotsOf(inst), n, fixed))
      && (forall k :: 0 <= k < |w| ==> w[k].device in inst.wbDevices)
      && Arbitrated(w, deviceNum, maxDevicesPerArb)
    }

    /** Device n in the first inner loop of a pass. */
    method AssignNth(inst: Instance, device: WbDevice, n: nat, fixed: bool, ghost ids: seq<WbId>, ghost deviceNum: nat,
                     num: nat)
      returns (next: nat, outcome: Outcome)
      requires maxDevicesPerArb.Some? ==> maxDevicesPerArb.value > 0
      requires DistinctDevices(SlotsOf(inst)) && n < |inst.wbDevices| && device == inst.wbDevices[n]
      requires Assigned(inst, n, fixed, ids, deviceNum, num)
      modifies inst`wbIds, inst`wired, device`subArbId
      ensures outcome.Done? ==> Assigned(inst, n + 1, fixed, ids, deviceNum, next)
      ensures !outcome.Done? ==> !DistinctSuffixes(SlotsOf(inst))
      ensures maxDevicesPerArb.None? || device.request.Fixed() != fixed ==> device.subArbId == old(device.subArbId)
    {
      ghost var s := SlotsOf(inst);
      ghost var w := Wanted(s[..n], fixed);
      next, outcome := num, Done;
      WantedStep(s, n, fixed);
      WantedBefore(s, n, fixed);
      if device.request.Fixed() == fixed {
        WireNth(inst, n, fixed, inst.wired);
        var ok := AssignInterface(inst, device, n, num);
        if !ok {
          return num, ImmutableError;
        }
        next := num + 1;
        assert Ids(w + [s[n]]) == Ids(w) + [s[n].id];
      } else {
        assert WiredSlots(s, n + 1, fixed) == WiredSlots(s, n, fixed);
      }
    }

    /** First inner loop of a pass: hand out arbiter numbers and identifiers to an instance's wanted devices. It raises
        only if two devices of the instance share a port suffix. */
    method AssignInterfaces(inst: Instance, fixed: bool, deviceNum: nat) returns (next: nat, outcome: Outcome)
      requires maxDevicesPerArb.Some? ==> maxDevicesPerArb.value > 0
      requires DistinctDevices(SlotsOf(inst)) && Before(inst, fixed)
      modifies inst`wbIds, inst`wired, inst.wbDevices`subArbId
      ensures outcome.Done? ==> Assigned(inst, |inst.wbDevices|, fixed, old(inst.wbIds), deviceNum, next)
      ensures !outcome.Done? ==> !DistinctSuffixes(SlotsOf(inst))
      ensures forall d :: d in inst.wbDevices && (maxDevicesPerArb.None? || d.request.Fixed() != fixed) ==>
                d.subArbId == old(d.subArbId)
    {
      next, outcome := deviceNum, Done;
      BeforeWired(inst, fixed);
      assert SlotsOf(inst)[..0] == [];
      for n := 0 to |inst.wbDevices|
        invariant outcome.Done? && Assigned(inst, n, fixed, old(inst.wbIds), deviceNum, next)
        invariant forall d :: d in inst.wbDevices && (maxDevicesPerArb.None? || d.request.Fixed() != fixed) ==>
                    d.subArbId == old(d.subArbId)
      {
        next, outcome := AssignNth(inst, inst.wbDevices[n], n, fixed, old(inst.wbIds), deviceNum, next);
        if !outcome.Done? {
          return;
        }
      }
    }

    /** Write-once localparam: setting a different value is an error. */
    method AddLocalparam(id: WbId, value: int) returns (ok: bool)
      modifies this`localparams
      ensures ok <==> id !in old(localparams) || old(localparams)[id] == value
      ensures localparams == if ok then old(localparams)[id := value] else old(localparams)
    {
      ok := id !in localparams || localparams[id] == value;
      if ok {
        localparams := localparams[id := value];
      }
    }

    /** One device of the second inner loop: address it, number it, append it. */
    method PlaceDevice(ghost v: seq<Slot>, ghost ws: seq<Window>, device: WbDevice, id: WbId,
                       origin: int, cursor: int, alignment: int)
      returns (next: int, ok: bool)
      requires alignment > 0
      requires Visited(v, ws) && forall k :: 0 <= k < |v| ==> v[k].device != device
      modifies this`wbDevices, this`nWbSlaves, this`localparams, device`baseAddr, device`highAddr
      ensures ok ==> Visited(v + [Slot(id, device)], ws + [PlaceOne(device.request, origin, cursor, alignment)])
      ensures next == Bump(device.request, origin, cursor, alignment)
      ensures ok <==> forall k :: 0 <= k < |v| ==> v[k].id != id
    {
      NumberedStep(v, Slot(id, device), localparams);
      next := SetAddresses(device, origin, cursor, alignment);
      ok := AddLocalparam(id, nWbSlaves);
      nWbSlaves := nWbSlaves + 1;
      wbDevices := wbDevices + [device];
    }

    /** `v` has been visited under the placement rules and the cursor stands behind it. */
    ghost predicate Reached(v: seq<Slot>, origin: int, cursor: int, alignment: int)
      requires alignment > 0
      reads this, set x | x in v :: x.device
    {
      && Visited(v, Place(Requests(v), origin, alignment))
      && cursor == Cursor(Requests(v), |v|, origin, alignment)
    }

    method PlaceNext(ghost v: seq<Slot>, device: WbDevice, id: WbId, origin: int, cursor: int, alignment: int)
      returns (next: int, ok: bool)
      requires alignment > 0 && Reached(v, origin, cursor, alignment)
      requires forall k :: 0 <= k < |v| ==> v[k].device != device
      modifies this`wbDevices, this`nWbSlaves, this`localparams, device`baseAddr, device`highAddr
      ensures ok ==> Reached(v + [Slot(id, device)], origin, next, alignment)
      ensures ok <==> forall k :: 0 <= k < |v| ==> v[k].id != id
    {
      PlaceStep(v, Slot(id, device), origin, alignment);
      next, ok := PlaceDevice(v, Place(Requests(v), origin, alignment), device, id, origin, cursor, alignment);
    }

    /** Device n of an instance in the second inner loop of a pass. */
    method PlaceNth(ghost v: seq<Slot>, ghost placed: seq<Slot>, inst: Instance, n: nat, fixed: bool,
                    origin: int, cursor: int, alignment: int)
      returns (next: int, outcome: Outcome, ghost placed': seq<Slot>)
      requires alignment > 0 && n < |inst.wbDevices|
      requires DistinctDevices(v + Wanted(SlotsOf(inst), fixed))
      requires IdsReady(SlotsOf(inst), fixed, inst.wbIds)
      requires Walked(SlotsOf(inst), n, fixed, inst.wbIds, placed)
      requires Reached(v + placed, origin, cursor, alignment)
      modifies this`wbDevices, this`nWbSlaves, this`localparams
      modifies inst.wbDevices`baseAddr, inst.wbDevices`highAddr
      ensures outcome.Done? ==>
                && Walked(SlotsOf(inst), n + 1, fixed, inst.wbIds, placed')
                && Reached(v + placed', origin, next, alignment)
      ensures !outcome.Done? ==>
                !FixedFirst(SlotsOf(inst)) || !DistinctIds(v + Wanted(SlotsOf(inst), fixed))
    {
      ghost var s := SlotsOf(inst);
      var device := inst.wbDevices[n];
      next, outcome, placed' := cursor, Done, placed;
      if device.request.Fixed() != fixed {
        WalkPast(s, n, fixed, inst.wbIds, placed);
      } else if n >= |inst.wbIds| {
        outcome := IndexError;
      } else {
        WalkOn(v, s, n, fixed, inst.wbIds, placed);
        placed' := placed + [Slot(inst.wbIds[n], device)];
        assert v + placed + [Slot(inst.wbIds[n], device)] == v + placed';
        var ok;
        next, ok := PlaceNext(v + placed, device, inst.wbIds[n], origin, cursor, alignment);
        outcome := if ok then Done else ImmutableError;
      }
    }

    /** Second inner loop of a pass: address and number an instance's wanted devices. */
    method PlaceDevices(ghost v: seq<Slot>, inst: Instance, fixed: bool, origin: int, cursor: int, alignment: int)
      returns (next: int, outcome: Outcome)
      requires alignment > 0 && Reached(v, origin, cursor, alignment)
      requires DistinctDevices(v + Wanted(SlotsOf(inst), fixed))
      requires IdsReady(SlotsOf(inst), fixed, inst.wbIds)
      modifies this`wbDevices, this`nWbSlaves, this`localparams
      modifies inst.wbDevices`baseAddr, inst.wbDevices`highAddr
      ensures outcome.Done? ==>
                FixedFirst(SlotsOf(inst)) && Reached(v + Wanted(SlotsOf(inst), fixed), origin, next, alignment)
      ensures !outcome.Done? ==>
                !FixedFirst(SlotsOf(inst)) || !DistinctIds(v + Wanted(SlotsOf(inst), fixed))
    {
      ghost var placed: seq<Slot> := [];
      next, outcome := cursor, Done;
      assert v + placed == v;
      assert SlotsOf(inst)[..0] == [];
      for n := 0 to |inst.wbDevices|
        invariant outcome.Done? && Walked(SlotsOf(inst), n, fixed, inst.wbIds, placed)
        invariant Reached(v + placed, origin, next, alignment)
      {
        next, outcome, placed := PlaceNth(v, placed, inst, n, fixed, origin, next, alignment);
        if !outcome.Done? {
          return;
        }
      }
      WalkDone(SlotsOf(inst), fixed, inst.wbIds, placed);
    }

    /** Both inner loops on one instance. */
    method PlaceInstance(ghost v: seq<Slot>, inst: Instance, fixed: bool, origin: int, cursor: int, alignment: int,
                         deviceNum: nat)
      returns (next: int, num: nat, outcome: Outcome)
      requires maxDevicesPerArb.Some? ==> maxDevicesPerArb.value > 0
      requires alignment > 0 && Reached(v, origin, cursor, alignment)
      requires deviceNum == |v| && Arbitrated(v, 0, maxDevicesPerArb)
      requires DistinctDevices(SlotsOf(inst)) && DistinctDevices(v + Wanted(SlotsOf(inst), fixed))
      requires Before(inst, fixed)
      modifies this`wbDevices, this`nWbSlaves, this`localparams
      modifies inst`wbIds, inst`wired
      modifies inst.wbDevices`baseAddr, inst.wbDevices`highAddr, inst.wbDevices`subArbId
      ensures outcome.Done? ==>
                && After(inst, fixed)
                && Reached(v + Wanted(SlotsOf(inst), fixed), origin, next, alignment)
                && Arbitrated(v + Wanted(SlotsOf(inst), fixed), 0, maxDevicesPerArb)
                && num == |v + Wanted(SlotsOf(inst), fixed)|
      ensures !outcome.Done? ==> !InOrder(inst) || !DistinctIds(v + Wanted(SlotsOf(inst), fixed))
      ensures maxDevicesPerArb.None? ==> forall d :: d in inst.wbDevices ==> d.subArbId == old(d.subArbId)
    {
      next := cursor;
      num, outcome := NumberInstance(v, inst, fixed, deviceNum);
      if outcome.Done? {
        IdsAfter(inst, fixed);
        next, outcome := AddressInstance(v, inst, fixed, origin, cursor, alignment);
      }
      if outcome.Done? {
        AllWired(inst, fixed);
      }
    }

    /** Both inner loops on one instance leave the wiring of other instances alone. */
    method PlaceAmong(ghost v: seq<Slot>, inst: Instance, ghost others: seq<Instance>, fixed: bool, origin: int,
                      cursor: int, alignment: int, deviceNum: nat)
      returns (next: int, num: nat, outcome: Outcome)
      requires maxDevicesPerArb.Some? ==> maxDevicesPerArb.value > 0
      requires alignment > 0 && Reached(v, origin, cursor, alignment)
      requires deviceNum == |v| && Arbitrated(v, 0, maxDevicesPerArb)
      requires DistinctDevices(SlotsOf(inst)) && DistinctDevices(v + Wanted(SlotsOf(inst), fixed))
      requires Before(inst, fixed)
      modifies this`wbDevices, this`nWbSlaves, this`localparams
      modifies inst`wbIds, inst`wired
      modifies inst.wbDevices`baseAddr, inst.wbDevices`highAddr, inst.wbDevices`subArbId
      ensures forall p :: p in others && p != inst ==> unchanged(p`wbIds, p`wired)
      ensures outcome.Done? ==>
                && After(inst, fixed)
                && Reached(v + Wanted(SlotsOf(inst), fixed), origin, next, alignment)
                && Arbitrated(v + Wanted(SlotsOf(inst), fixed), 0, maxDevicesPerArb)
                && num == |v + Wanted(SlotsOf(inst), fixed)|
      ensures !outcome.Done? ==> !InOrder(inst) || !DistinctIds(v + Wanted(SlotsOf(inst), fixed))
      ensures maxDevicesPerArb.None? ==> forall d :: d in inst.wbDevices ==> d.subArbId == old(d.subArbId)
    {
      next, num, outcome := PlaceInstance(v, inst, fixed, origin, cursor, alignment, deviceNum);
    }

    /** The second inner loop leaves the arbiter numbers alone. */
    method AddressInstance(ghost v: seq<Slot>, inst: Instance, fixed: bool, origin: int, cursor: int, alignment: int)
      returns (next: int, outcome: Outcome)
      requires maxDevicesPerArb.Some? ==> maxDevicesPerArb.value > 0
      requires alignment > 0 && Reached(v, origin, cursor, alignment)
      requires DistinctDevices(v + Wanted(SlotsOf(inst), fixed))
      requires IdsReady(SlotsOf(inst), fixed, inst.wbIds)
      requires Arbitrated(v + Wanted(SlotsOf(inst), fixed), 0, maxDevicesPerArb)
      modifies this`wbDevices, this`nWbSlaves, this`localparams
      modifies inst.wbDevices`baseAddr, inst.wbDevices`highAddr
      ensures outcome.Done? ==>
                FixedFirst(SlotsOf(inst)) && Reached(v + Wanted(SlotsOf(inst), fixed), origin, next, alignment)
      ensures !outcome.Done? ==>
                !FixedFirst(SlotsOf(inst)) || !DistinctIds(v + Wanted(SlotsOf(inst), fixed))
      ensures Arbitrated(v + Wanted(SlotsOf(inst), fixed), 0, maxDevicesPerArb)
      ensures forall d :: d in inst.wbDevices ==> d.subArbId == old(d.subArbId)
    {
      ghost var w := Wanted(SlotsOf(inst), fixed);
      WantedDevices(inst, fixed);
      next, outcome := PlaceDevices(v, inst, fixed, origin, cursor, alignment);
      assert forall k :: 0 <= k < |v| ==> v[k].device.subArbId == old(v[k].device.subArbId);
      assert forall d :: d in inst.wbDevices ==> d.subArbId == old(d.subArbId);
      assert forall k :: 0 <= k < |w| ==> w[k].device in inst.wbDevices;
    }

    /** The first inner loop leaves the devices numbered earlier alone. */
    method NumberInstance(ghost v: seq<Slot>, inst: Instance, fixed: bool, deviceNum: nat)
      returns (num: nat, outcome: Outcome)
      requires maxDevicesPerArb.Some? ==> maxDevicesPerArb.value > 0
      requires deviceNum == |v| && Arbitrated(v, 0, maxDevicesPerArb)
      requires DistinctDevices(SlotsOf(inst)) && DistinctDevices(v + Wanted(SlotsOf(inst), fixed))
      requires Before(inst, fixed)
      modifies inst`wbIds, inst`wired, inst.wbDevices`subArbId
      ensures outcome.Done? ==>
                && Arbitrated(v + Wanted(SlotsOf(inst), fixed), 0, maxDevicesPerArb)
                && num == |v + Wanted(SlotsOf(inst), fixed)|
                && inst.wbIds == old(inst.wbIds) + Ids(Wanted(SlotsOf(inst), fixed))
                && Wired(inst.wired, WiredSlots(SlotsOf(inst), |inst.wbDevices|, fixed))
      ensures !outcome.Done? ==> !DistinctSuffixes(SlotsOf(inst))
      ensures maxDevicesPerArb.None? ==> forall d :: d in inst.wbDevices ==> d.subArbId == old(d.subArbId)
    {
      NotYetWanted(v, SlotsOf(inst), fixed);
      assert forall n :: 0 <= n < |inst.wbDevices| ==> SlotsOf(inst)[n].device == inst.wbDevices[n];
      num, outcome := AssignInterfaces(inst, fixed, deviceNum);
      assert SlotsOf(inst)[..|inst.wbDevices|] == SlotsOf(inst);
      assert Arbitrated(v, 0, maxDevicesPerArb);
    }

    /** One pass over all instances. It ends without an error if every instance is in order and no identifier repeats,
        and leaves every instance in order. */
    method Pass(ghost v: seq<Slot>, insts: seq<Instance>, fixed: bool, origin: int, cursor: int, alignment: int,
                deviceNum: nat)
      returns (next: int, num: nat, outcome: Outcome)
      requires maxDevicesPerArb.Some? ==> maxDevicesPerArb.value > 0
      requires alignment > 0 && Reached(v, origin, cursor, alignment)
      requires deviceNum == |v| && Arbitrated(v, 0, maxDevicesPerArb)
      requires Unshared(insts) && DistinctDevices(v + Wanted(Slots(insts), fixed))
      requires (forall i :: 0 <= i < |insts| ==> Before(insts[i], fixed)) && OneWord(DevicesOf(insts), maxDevicesPerArb)
      modifies this`wbDevices, this`nWbSlaves, this`localparams
      modifies insts`wbIds, insts`wired
      modifies DevicesOf(insts)`baseAddr, DevicesOf(insts)`highAddr, DevicesOf(insts)`subArbId
      ensures outcome.Done? ==>
                && (forall i :: 0 <= i < |insts| ==> After(insts[i], fixed))
                && Reached(v + Wanted(Slots(insts), fixed), origin, next, alignment)
                && Arbitrated(v + Wanted(Slots(insts), fixed), 0, maxDevicesPerArb)
                && num == |v + Wanted(Slots(insts), fixed)|
      ensures OneWord(DevicesOf(insts), maxDevicesPerArb)
      ensures !outcome.Done? ==> !Orderly(insts) || !DistinctIds(v + Wanted(Slots(insts), fixed))
    {
      next, num, outcome := cursor, deviceNum, Done;
      PassEnds(v, insts, fixed);
      for i := 0 to |insts|
        invariant outcome.Done?
        invariant Through(v, insts, i, fixed, origin, next, alignment, num)
        invariant Passed(insts, i, fixed) && OneWord(DevicesOf(insts), maxDevicesPerArb)
      {
        next, num, outcome := PassNth(v, insts, i, fixed, origin, next, alignment, num);
        if !outcome.Done? {
          return;
        }
      }
    }

    /** The pass has got through the first i instances. */
    ghost predicate Through(v: seq<Slot>, insts: seq<Instance>, i: nat, fixed: bool, origin: int, cursor: int,
                            alignment: int, num: nat)
      requires maxDevicesPerArb.Some? ==> maxDevicesPerArb.value > 0
      requires alignment > 0 && i <= |insts|
      reads this, set x | x in v + Wanted(Slots(insts[..i]), fixed) :: x.device
    {
      var u := v + Wanted(Slots(insts[..i]), fixed);
      && Reached(u, origin, cursor, alignment)
      && Arbitrated(u, 0, maxDevicesPerArb)
      && num == |u|
    }

    method PassNth(ghost v: seq<Slot>, insts: seq<Instance>, i: nat, fixed: bool, origin: int, cursor: int,
                   alignment: int, deviceNum: nat)
      returns (next: int, num: nat, outcome: Outcome)
      requires maxDevicesPerArb.Some? ==> maxDevicesPerArb.value > 0
      requires alignment > 0 && i < |insts|
      requires Unshared(insts) && DistinctDevices(v + Wanted(Slots(insts), fixed))
      requires Through(v, insts, i, fixed, origin, cursor, alignment, deviceNum)
      requires Passed(insts, i, fixed) && OneWord(DevicesOf(insts), maxDevicesPerArb)
      modifies this`wbDevices, this`nWbSlaves, this`localparams
      modifies insts`wbIds, insts`wired
      modifies DevicesOf(insts)`baseAddr, DevicesOf(insts)`highAddr, DevicesOf(insts)`subArbId
      ensures outcome.Done? ==>
                && Through(v, insts, i + 1, fixed, origin, next, alignment, num)
                && Passed(insts, i + 1, fixed)
      ensures OneWord(DevicesOf(insts), maxDevicesPerArb)
      ensures !outcome.Done? ==> !InOrder(insts[i]) || !DistinctIds(v + Wanted(Slots(insts), fixed))
    {
      OthersApart(insts, i);
      next, num, outcome := PassInstance(v, insts, i, insts[i], fixed, origin, cursor, alignment, deviceNum);
    }

    /** One instance of a pass. */
    method PassInstance(ghost v: seq<Slot>, insts: seq<Instance>, i: nat, inst: Instance, fixed: bool, origin: int,
                        cursor: int, alignment: int, deviceNum: nat)
      returns (next: int, num: nat, outcome: Outcome)
      requires maxDevicesPerArb.Some? ==> maxDevicesPerArb.value > 0
      requires alignment > 0 && i < |insts| && inst == insts[i] && Before(inst, fixed)
      requires Unshared(insts) && DistinctDevices(v + Wanted(Slots(insts), fixed))
      requires Through(v, insts, i, fixed, origin, cursor, alignment, deviceNum)
      modifies this`wbDevices, this`nWbSlaves, this`localparams
      modifies inst`wbIds, inst`wired
      modifies inst.wbDevices`baseAddr, inst.wbDevices`highAddr, inst.wbDevices`subArbId
      ensures forall p :: p in insts && p != inst ==> unchanged(p`wbIds, p`wired)
      ensures outcome.Done? ==>
                Through(v, insts, i + 1, fixed, origin, next, alignment, num) && After(inst, fixed)
      ensures !outcome.Done? ==> !InOrder(inst) || !DistinctIds(v + Wanted(Slots(insts), fixed))
      ensures maxDevicesPerArb.None? ==> forall d :: d in inst.wbDevices ==> d.subArbId == old(d.subArbId)
    {
      PassStep(v, insts, i, fixed);
      next, num, outcome :=
        PlaceAmong(v + Wanted(Slots(insts[..i]), fixed), inst, insts, fixed, origin, cursor, alignment, deviceNum);
    }

    method SetAddresses(device: WbDevice, origin: int, cursor: int, alignment: int) returns (next: int)
      requires alignment > 0
      modifies device`baseAddr, device`highAddr
      ensures device.Range() == PlaceOne(device.request, origin, cursor, alignment)
      ensures next == Bump(device.request, origin, cursor, alignment)
    {
      var span := alignment * CeilDiv(device.request.nbytes, alignment);
      RoundUpIsCeiling(device.request.nbytes, alignment);
      next := cursor;
      if device.request.Fixed() {
        device.baseAddr := origin + device.request.offset;
        device.highAddr := origin + device.request.offset + span - 1;
        if device.highAddr > cursor {
          next := device.highAddr + 1;
        }
      } else {
        device.baseAddr := cursor;
        device.highAddr := cursor + span - 1;
        next := device.highAddr + 1;
      }
    }

    /** SLAVE_ADDR and SLAVE_HIGH for the sorted devices, flat or hierarchical. */
    method EmitTables(ghost ts: seq<Window>)
      requires maxDevicesPerArb.Some? ==> maxDevicesPerArb.value > 0
      requires Ranged(wbDevices, ts)
      modifies this`tables
      ensures tables == TablesFor(ts, maxDevicesPerArb)
    {
      var ws: seq<Window> := [];
      for i := 0 to |wbDevices|
        invariant |ws| == i && forall k :: 0 <= k < i ==> ws[k] == ts[k]
      {
        ws := ws + [wbDevices[i].Range()];
      }
      assert ws == ts;
      if maxDevicesPerArb.Some? {
        var m := GenMasterArbiter(ws, maxDevicesPerArb.value);
        tables := Hierarchical(m);
      } else {
        var addr, high := [], [];
        for i := 0 to |ws|
          invariant |addr| == |high| == i
          invariant forall k :: 0 <= k < i ==> addr[k] == FlatTable(ws).addr[k] && high[k] == FlatTable(ws).high[k]
        {
          addr := addr + [Word(ws[|ws| - 1 - i].base)];
          high := high + [Word(ws[|ws| - 1 - i].high)];
        }
        assert addr == FlatTable(ws).addr && high == FlatTable(ws).high;
        tables := Flat(Table(addr, high));
      }
    }

    /** What both passes leave, and the tables to come do not change. */
    ghost predicate Placed(baseAddr: int, alignment: int)
      requires alignment > 0 && (maxDevicesPerArb.Some? ==> maxDevicesPerArb.value > 0)
      reads this, set x | x in Visit(blocks) :: x.device
    {
      PlacedAs(Visit(blocks), localparams, nWbSlaves, maxDevicesPerArb, baseAddr, alignment)
    }

    /** What wb_compute leaves: also the devices in address order, and the tables that describe them. */
    ghost predicate Computed(baseAddr: int, alignment: int)
      requires alignment > 0 && (maxDevicesPerArb.Some? ==> maxDevicesPerArb.value > 0)
      reads this, wbDevices, set x | x in Visit(blocks) :: x.device
    {
      && Placed(baseAddr, alignment)
      && Emitted(Visit(blocks), wbDevices, tables, maxDevicesPerArb, baseAddr, alignment)
    }

    /** wb_compute on a fresh module. It completes exactly when every instance lists its requested devices before the
        others under different port suffixes, and no two identifiers coincide. */
    method WbCompute(baseAddr: int, alignment: int) returns (outcome: Outcome)
      requires alignment > 0 && (maxDevicesPerArb.Some? ==> maxDevicesPerArb.value > 0)
      requires WellFormed(blocks) && Fresh()
      modifies this, InstancesOf(blocks)`wbIds, InstancesOf(blocks)`wired, DevicesOf(InstancesOf(blocks))
      ensures outcome.Done? <==> Orderly(InstancesOf(blocks)) && DistinctIds(Visit(blocks))
      ensures outcome.Done? ==> Computed(baseAddr, alignment)
      ensures outcome.Done? ==> RequestsHonoured(DevicesOf(InstancesOf(blocks)), baseAddr, alignment)
      ensures outcome.Done? ==> PackedBehind(FirstVisit(blocks), SecondVisit(blocks), baseAddr, alignment)
    {
      var num: nat, cursor: int;
      cursor, num, outcome := BothPasses(baseAddr, alignment);
      if outcome.Done? {
        SortAndEmit(Visit(blocks), baseAddr, alignment);
        PlacementGrants(blocks, baseAddr, alignment);
      }
    }

    /** The devices visited, sorted by address, and the tables for them. */
    method SortAndEmit(ghost v: seq<Slot>, ghost baseAddr: int, ghost alignment: int)
      requires alignment > 0 && (maxDevicesPerArb.Some? ==> maxDevicesPerArb.value > 0)
      requires wbDevices == Devices(v)
      requires PlacedAs(v, localparams, nWbSlaves, maxDevicesPerArb, baseAddr, alignment)
      modifies this`wbDevices, this`tables
      ensures PlacedAs(v, localparams, nWbSlaves, maxDevicesPerArb, baseAddr, alignment)
      ensures Emitted(v, wbDevices, tables, maxDevicesPerArb, baseAddr, alignment)
    {
      SortWindows(Place(Requests(v), baseAddr, alignment));
    }

    method SortWindows(ghost ws: seq<Window>)
      requires maxDevicesPerArb.Some? ==> maxDevicesPerArb.value > 0
      requires Ranged(wbDevices, ws)
      modifies this`wbDevices, this`tables
      ensures multiset(wbDevices) == multiset(old(wbDevices))
      ensures Ranged(wbDevices, SortByBase(ws))
      ensures tables == TablesFor(SortByBase(ws), maxDevicesPerArb)
    {
      wbDevices := SortDevices(wbDevices, ws);
      EmitTables(SortByBase(ws));
    }

    method BothPasses(baseAddr: int, alignment: int) returns (cursor: int, num: nat, outcome: Outcome)
      requires alignment > 0 && (maxDevicesPerArb.Some? ==> maxDevicesPerArb.value > 0)
      requires WellFormed(blocks) && Fresh()
      modifies this`wbDevices, this`nWbSlaves, this`localparams
      modifies InstancesOf(blocks)`wbIds, InstancesOf(blocks)`wired
      modifies DevicesOf(InstancesOf(blocks))`baseAddr, DevicesOf(InstancesOf(blocks))`highAddr
      modifies DevicesOf(InstancesOf(blocks))`subArbId
      ensures outcome.Done? <==> Orderly(InstancesOf(blocks)) && DistinctIds(Visit(blocks))
      ensures outcome.Done? ==> wbDevices == Devices(Visit(blocks)) && Placed(baseAddr, alignment)
    {
      cursor, num, outcome := FirstPass(baseAddr, alignment);
      if outcome.Done? {
        cursor, num, outcome := SecondPass(baseAddr, cursor, alignment, num);
      }
      if outcome.Done? {
        NumberedDistinct(Visit(blocks), localparams);
        VisitedDevices(blocks);
      }
    }

    method FirstPass(baseAddr: int, alignment: int) returns (cursor: int, num: nat, outcome: Outcome)
      requires alignment > 0 && (maxDevicesPerArb.Some? ==> maxDevicesPerArb.value > 0)
      requires WellFormed(blocks) && Fresh()
      modifies this`wbDevices, this`nWbSlaves, this`localparams
      modifies InstancesOf(blocks)`wbIds, InstancesOf(blocks)`wired
      modifies DevicesOf(InstancesOf(blocks))`baseAddr, DevicesOf(InstancesOf(blocks))`highAddr
      modifies DevicesOf(InstancesOf(blocks))`subArbId
      ensures outcome.Done? ==>
                && Reached(FirstVisit(blocks), baseAddr, cursor, alignment)
                && Arbitrated(FirstVisit(blocks), 0, maxDevicesPerArb)
                && num == |FirstVisit(blocks)|
                && OneWord(DevicesOf(InstancesOf(blocks)), maxDevicesPerArb)
                && forall i :: 0 <= i < |InstancesOf(blocks)| ==> Before(InstancesOf(blocks)[i], false)
      ensures !outcome.Done? ==> !Orderly(InstancesOf(blocks)) || !DistinctIds(Visit(blocks))
    {
      var first := InstancesOf(SortBlocks(blocks));
      FirstPassReady(blocks);
      CarryFresh(blocks);
      CarryOrder(blocks);
      cursor, num, outcome := Pass([], first, true, baseAddr, baseAddr, alignment, 0);
      if outcome.Done? {
        CarryIds(blocks);
      }
    }

    method SecondPass(baseAddr: int, from: int, alignment: int, deviceNum: nat)
      returns (cursor: int, num: nat, outcome: Outcome)
      requires alignment > 0 && (maxDevicesPerArb.Some? ==> maxDevicesPerArb.value > 0)
      requires WellFormed(blocks)
      requires Reached(FirstVisit(blocks), baseAddr, from, alignment)
      requires Arbitrated(FirstVisit(blocks), 0, maxDevicesPerArb) && deviceNum == |FirstVisit(blocks)|
      requires forall i :: 0 <= i < |InstancesOf(blocks)| ==> Before(InstancesOf(blocks)[i], false)
      requires OneWord(DevicesOf(InstancesOf(blocks)), maxDevicesPerArb)
      modifies this`wbDevices, this`nWbSlaves, this`localparams
      modifies InstancesOf(blocks)`wbIds, InstancesOf(blocks)`wired
      modifies DevicesOf(InstancesOf(blocks))`baseAddr, DevicesOf(InstancesOf(blocks))`highAddr
      modifies DevicesOf(InstancesOf(blocks))`subArbId
      ensures outcome.Done? ==>
                && Reached(Visit(blocks), baseAddr, cursor, alignment)
                && Arbitrated(Visit(blocks), 0, maxDevicesPerArb)
                && OneWord(DevicesOf(InstancesOf(blocks)), maxDevicesPerArb)
                && Orderly(InstancesOf(blocks))
      ensures !outcome.Done? ==> !Orderly(InstancesOf(blocks)) || !DistinctIds(Visit(blocks))
    {
      VisitDistinct(blocks);
      cursor, num, outcome :=
        Pass(FirstVisit(blocks), InstancesOf(blocks), false, baseAddr, from, alignment, deviceNum);
      if outcome.Done? {
        AllInOrder(InstancesOf(blocks));
      }
    }
  }

  // ---------------------------------------------------------------------------------------------------------
  // The finished bus
  // ---------------------------------------------------------------------------------------------------------

  /** The strobe lines that the emitted tables drive for an address, for n slaves. */
  function StrobeLines(t: Tables, n: nat, x: int): seq<bool>
    requires t.Hierarchical? ==> t.master.Shaped()
  {
    match t
    case NoTables => []
    case Flat(table) => Select(table, n, x)
    case Hierarchical(master) => master.Strobes(x)
  }

  /** Word `word` of the address bus; a flat arbiter has only word 0. */
  function AddressWord(t: Tables, n: nat, word: int, x: int): Option<int>
    requires t.Hierarchical? ==> t.master.Shaped()
  {
    match t
    case NoTables => None
    case Flat(table) => if word == 0 then Some(Relative(table, Select(table, n, x), x)) else None
    case Hierarchical(master) =>
      if 0 <= word < |master.subs| then Some(master.AddressSlice(word, x)) else None
  }

  /** The device of a slot, connected to the line its localparam names and to the address word of its sub-arbiter,
      answers exactly the addresses in its window; there it is alone and reads the address relative to its base. */
  ghost predicate Answers(m: VerilogModule, slot: Slot, x: int)
    requires m.tables.Hierarchical? ==> m.tables.master.Shaped()
    reads m, slot.device
  {
    && slot.id in m.localparams
    && Selected(StrobeLines(m.tables, m.nWbSlaves, x), m.localparams[slot.id],
                AddressWord(m.tables, m.nWbSlaves, slot.device.subArbId, x), slot.device.Range(), x)
  }

  /** The line is strobed exactly for x in the range; then it is the only one, and the word carries x - base. */
  ghost predicate Selected(lines: seq<bool>, line: int, word: Option<int>, range: Window, x: int) {
    && 0 <= line < |lines|
    && (lines[line] <==> range.Contains(x))
    && (range.Contains(x) ==> word == Some(x - range.base) && forall q :: 0 <= q < |lines| && q != line ==> !lines[q])
  }

  ghost predicate AllAnswer(m: VerilogModule, v: seq<Slot>)
    requires m.tables.Hierarchical? ==> m.tables.master.Shaped()
    reads m, set x | x in v :: x.device
  {
    forall k, x :: 0 <= k < |v| && 0 <= x < WORD ==> Answers(m, v[k], x)
  }

  lemma {:induction false} LineCount(ws: seq<Window>, max: Option<int>, x: int)
    requires max.Some? ==> max.value > 0
    ensures |StrobeLines(TablesFor(SortByBase(ws), max), |ws|, x)| == |ws|
  {
    SortSorts(ws);
    if max.Some? {
      StrobeCount(SortByBase(ws), max.value, x);
    }
  }

  lemma {:induction false} LinesAreStrobes(ws: seq<Window>, max: Option<int>, k: nat, x: int)
    requires (max.Some? ==> max.value > 0) && k < |ws|
    ensures |StrobeLines(TablesFor(SortByBase(ws), max), |ws|, x)| == |ws|
    ensures StrobeLines(TablesFor(SortByBase(ws), max), |ws|, x)[k] <==> Strobed(ws, max, k, x)
  {
    SortSorts(ws);
    LineCount(ws, max, x);
  }

  /** The lines are the strobes. */
  ghost predicate DrivesLines(lines: seq<bool>, ws: seq<Window>, max: Option<int>, x: int)
    requires max.Some? ==> max.value > 0
  {
    |lines| == |ws| && forall j :: 0 <= j < |ws| ==> (lines[j] <==> Strobed(ws, max, j, x))
  }

  /** The word is what device k reads inside its window. */
  ghost predicate DrivesWord(word: Option<int>, ws: seq<Window>, max: Option<int>, k: nat, x: int)
    requires (max.Some? ==> max.value > 0) && k < |ws|
  {
    ws[k].Contains(x) ==> (word == Some(x - ws[k].base) <==> AddressSeen(ws, max, k, x) == x - ws[k].base)
  }

  lemma {:induction false} TablesDriveLines(ws: seq<Window>, max: Option<int>, x: int)
    requires max.Some? ==> max.value > 0
    ensures DrivesLines(StrobeLines(TablesFor(SortByBase(ws), max), |ws|, x), ws, max, x)
  {
    var lines := StrobeLines(TablesFor(SortByBase(ws), max), |ws|, x);
    LineCount(ws, max, x);
    forall j | 0 <= j < |ws| ensures lines[j] <==> Strobed(ws, max, j, x) {
      LinesAreStrobes(ws, max, j, x);
    }
  }

  lemma {:induction false} TablesDriveWord(ws: seq<Window>, max: Option<int>, k: nat, word: int, x: int)
    requires (max.Some? ==> max.value > 0) && k < |ws| && word == (if max.Some? then k / max.value else 0)
    ensures DrivesWord(AddressWord(TablesFor(SortByBase(ws), max), |ws|, word, x), ws, max, k, x)
  {
    SortSorts(ws);
  }

  /** The lines and words driven by the tables are those the placement is judged by. */
  lemma {:induction false} SelectedIffServed(lines: seq<bool>, word: Option<int>, ws: seq<Window>, max: Option<int>, k: nat,
                                             x: int)
    requires (max.Some? ==> max.value > 0) && k < |ws|
    requires DrivesLines(lines, ws, max, x) && DrivesWord(word, ws, max, k, x)
    ensures Selected(lines, k, word, ws[k], x) <==> Served(ws, max, k, x)
  {
  }

  lemma {:induction false} AnswersIffServed(m: VerilogModule, baseAddr: int, alignment: int, k: nat, x: int)
    requires alignment > 0 && (m.maxDevicesPerArb.Some? ==> m.maxDevicesPerArb.value > 0)
    requires m.Computed(baseAddr, alignment) && k < |Visit(m.blocks)|
    ensures var ws := Place(Requests(Visit(m.blocks)), baseAddr, alignment);
            Answers(m, Visit(m.blocks)[k], x) <==> Served(ws, m.maxDevicesPerArb, k, x)
  {
    var v, max := Visit(m.blocks), m.maxDevicesPerArb;
    var ws := Place(Requests(v), baseAddr, alignment);
    assert v[k] in v && m.localparams[v[k].id] == k && v[k].device.Range() == ws[k];
    var word := v[k].device.subArbId;
    TablesDriveLines(ws, max, x);
    TablesDriveWord(ws, max, k, word, x);
    SelectedIffServed(StrobeLines(m.tables, |ws|, x), AddressWord(m.tables, |ws|, word, x), ws, max, k, x);
  }

  lemma {:induction false} AllAnswerIffServes(m: VerilogModule, baseAddr: int, alignment: int)
    requires alignment > 0 && (m.maxDevicesPerArb.Some? ==> m.maxDevicesPerArb.value > 0)
    requires m.Computed(baseAddr, alignment)
    ensures AllAnswer(m, Visit(m.blocks)) <==>
              BusServes(Place(Requests(Visit(m.blocks)), baseAddr, alignment), m.maxDevicesPerArb)
  {
    var v, max := Visit(m.blocks), m.maxDevicesPerArb;
    var ws := Place(Requests(v), baseAddr, alignment);
    forall k, x | 0 <= k < |v| && 0 <= x < WORD ensures Answers(m, v[k], x) <==> Served(ws, max, k, x) {
      AnswersIffServed(m, baseAddr, alignment, k, x);
    }
  }

  /** The bus that wb_compute leaves behind serves every device if and only if the requested offsets rise over the
      blocks in name order, the requested windows do not overlap, and none of them leaves the cursor on its last byte
      with devices still to be packed. */
  lemma {:induction false} ComputedBusCorrectIff(m: VerilogModule, baseAddr: int, alignment: int)
    requires alignment > 0 && (m.maxDevicesPerArb.Some? ==> m.maxDevicesPerArb.value > 0)
    requires m.Computed(baseAddr, alignment)
    requires Sized(Requests(Visit(m.blocks))) && InWordSpace(Place(Requests(Visit(m.blocks)), baseAddr, alignment))
    ensures AllAnswer(m, Visit(m.blocks)) <==>
              GoodRequests(Requests(FirstVisit(m.blocks)), Requests(SecondVisit(m.blocks)), baseAddr, alignment)
  {
    var bs, max := m.blocks, m.maxDevicesPerArb;
    VisitRequests(bs);
    VisitSized(bs);
    InterconnectCorrectIff(Requests(FirstVisit(bs)), Requests(SecondVisit(bs)), baseAddr, alignment, max);
    AllAnswerIffServes(m, baseAddr, alignment);
  }
}

/** `axi4lite_memory_map` as it runs: gang, round, order and address. */
module AxiModule {
  import opened Arith
  import opened AxiLayout
  import opened AxiMap
  import opened AxiOrder
  import opened AxiFinished
  import opened Wrappers

  datatype Outcome = Done | MathDomainError

  lemma {:induction false} ReplaceNext(now: seq<Interface>, after: seq<Interface>, before: seq<Interface>, k: nat)
    requires |now| == |after| == |before| && k < |now| && now[..k] == after[..k] && now[k..] == before[k..]
    ensures now[k := after[k]][..k + 1] == after[..k + 1] && now[k := after[k]][k + 1..] == before[k + 1..]
  {
    assert now[k := after[k]][..k + 1] == now[..k] + [after[k]] == after[..k + 1];
    assert now[k + 1..] == now[k..][1..] == before[k..][1..] == before[k + 1..];
  }

  class AxiBus {
    var devices: seq<AxiDevice>
    var memoryMap: seq<Interface>

    constructor ()
      ensures devices == [] && memoryMap == [] && Registered(devices)
    {
      devices, memoryMap := [], [];
    }

    /** add_axi4lite_interface: a second registration of a name is ignored; a device without a register list gets one
        register of its own name and size. */
    method AddAxi4liteInterface(regname: string, nbytes: int, typecode: int, mode: string, registers: seq<Register>)
      returns (added: bool)
      requires Registered(devices)
      modifies this`devices
      ensures Registered(devices)
      ensures added <==> forall i :: 0 <= i < |old(devices)| ==> old(devices)[i].regname != regname
      ensures !added ==> devices == old(devices)
      ensures added ==>
                && |devices| == |old(devices)| + 1 && devices[..|old(devices)|] == old(devices)
                && var d := devices[|old(devices)|];
                   && d.regname == regname && d.nbytes == nbytes && d.typecode == typecode && d.mode == mode
                   && d.baseAddr == None
                   && (if registers == [] then SingleRegister(d) else d.memoryMap == registers)
    {
      for i := 0 to |devices|
        invariant forall k :: 0 <= k < i ==> devices[k].regname != regname
      {
        if devices[i].regname == regname {
          return false;
        }
      }
      var regs := if registers == [] then [Register(regname, nbytes, 0)] else registers;
      devices := devices + [AxiDevice(regname, nbytes, typecode, mode, regs, None)];
      added := true;
    }

    /** The first loop: collect the devices into interfaces and take their register lists. */
    method GangDevices()
      requires Registered(devices) && memoryMap == []
      modifies this
      ensures memoryMap == Gang(old(devices), |old(devices)|)
      ensures devices == StrippedAll(old(devices))
    {
      ghost var ds := devices;
      for i := 0 to |devices|
        invariant Taken(ds, i)
      {
        GangNext(ds, i);
      }
    }

    /** The first i devices have been collected. */
    ghost predicate Taken(ds: seq<AxiDevice>, i: nat)
      requires Registered(ds)
      reads this
    {
      && i <= |ds| && |devices| == |ds|
      && memoryMap == Gang(ds, i)
      && (forall k :: 0 <= k < i ==> devices[k] == Stripped(ds[k]))
      && (forall k :: i <= k < |ds| ==> devices[k] == ds[k])
    }

    method GangNext(ghost ds: seq<AxiDevice>, i: nat)
      requires Registered(ds) && i < |ds| && Taken(ds, i)
      modifies this
      ensures Taken(ds, i + 1)
    {
      var d := devices[i];
      if d.IsSwReg() {
        var j := IndexOf(memoryMap, SW_REG);
        if j == -1 {
          memoryMap := memoryMap + [Own(d, SW_REG, i)];
        } else {
          memoryMap := memoryMap[j := Join(memoryMap[j], d, i)];
        }
        devices := devices[i := d.(memoryMap := [])];
      } else {
        memoryMap := Put(memoryMap, Own(d, d.regname, i));
        if d.typecode == TYPECODE_BRAM || d.mode == "raw" {
          devices := devices[i := d.(memoryMap := [])];
        }
      }
    }

    /** Round every size up to a power of two; the logarithm of a size below one is an error. */
    method RoundSizes() returns (outcome: Outcome)
      modifies this`memoryMap
      ensures outcome.Done? <==> AllSized(old(memoryMap))
      ensures outcome.Done? ==> memoryMap == RoundEntries(old(memoryMap))
    {
      ghost var m := memoryMap;
      for k := 0 to |memoryMap|
        invariant |memoryMap| == |m| && forall q :: 0 <= q < k ==> m[q].size >= 1 && memoryMap[q] == RoundEntry(m[q])
        invariant forall q :: k <= q < |m| ==> memoryMap[q] == m[q]
      {
        if memoryMap[k].size < 1 {
          return MathDomainError;
        }
        memoryMap := memoryMap[k := RoundEntry(memoryMap[k])];
      }
      outcome := Done;
      assert memoryMap == RoundEntries(m);
    }

    /** Pop the largest entry until none is left. */
    method OrderEntries()
      requires AllSized(memoryMap)
      modifies this`memoryMap
      ensures memoryMap == Ordered(old(memoryMap))
    {
      var ordered := [];
      while |memoryMap| > 0
        invariant AllSized(memoryMap) && ordered + Ordered(memoryMap) == Ordered(old(memoryMap))
        decreases |memoryMap|
      {
        var i := FindLargest();
        PopLargest(ordered, memoryMap);
        ordered := ordered + [memoryMap[i]];
        memoryMap := Without(memoryMap, i);
      }
      memoryMap := ordered;
    }

    method FindLargest() returns (maxIndex: nat)
      requires AllSized(memoryMap) && memoryMap != []
      ensures maxIndex == Largest(memoryMap, |memoryMap|)
    {
      var maxSize := 0;
      maxIndex := 0;
      for k := 0 to |memoryMap|
        invariant k == 0 ==> maxSize == 0
        invariant k > 0 ==> maxIndex == Largest(memoryMap, k) && maxSize == memoryMap[maxIndex].size
      {
        if memoryMap[k].size > maxSize {
          maxSize, maxIndex := memoryMap[k].size, k;
        }
      }
    }

    /** The name-matching loops over the shared interface. */
    method MatchRegisters(e: Interface, addr: int)
      requires e.key == SW_REG && forall q :: 0 <= q < |e.devices| ==> e.devices[q] < |devices|
      modifies this`devices
      ensures devices == Apply(old(devices), e, addr)
    {
      ghost var ds := devices;
      for p := 0 to |e.registers|
        invariant |devices| == |ds|
        invariant forall i :: 0 <= i < |ds| ==> devices[i] == Matched(ds[i], i, e.devices, e.registers[..p], addr)
      {
        MatchRegister(e.devices, e.registers[p], addr, ds, e.registers[..p]);
        assert e.registers[..p] + [e.registers[p]] == e.registers[..p + 1];
      }
      assert e.registers[..|e.registers|] == e.registers;
      assert devices == Apply(ds, e, addr);
    }

    method MatchRegister(refs: seq<nat>, reg: Register, addr: int, ghost ds: seq<AxiDevice>, ghost before: seq<Register>)
      requires |devices| == |ds| && forall q :: 0 <= q < |refs| ==> refs[q] < |devices|
      requires forall i :: 0 <= i < |ds| ==> devices[i] == Matched(ds[i], i, refs, before, addr)
      modifies this`devices
      ensures |devices| == |ds|
      ensures forall i :: 0 <= i < |ds| ==> devices[i] == Matched(ds[i], i, refs, before + [reg], addr)
    {
      assert (before + [reg])[..|before|] == before;
      for q := 0 to |refs|
        invariant |devices| == |ds|
        invariant forall i :: 0 <= i < |ds| ==>
                    devices[i] == if i in refs[..q] then Matched(ds[i], i, refs, before + [reg], addr)
                                  else Matched(ds[i], i, refs, before, addr)
      {
        var i := refs[q];
        assert refs[..q + 1] == refs[..q] + [i];
        if reg.name == devices[i].regname {
          devices := devices[i := devices[i].(baseAddr := Some(addr + reg.offset))];
        }
      }
      assert refs[..|refs|] == refs;
    }

    method AssignEntry(e: Interface, addr: int)
      requires RefsValid(e, |devices|)
      modifies this`devices
      ensures devices == Apply(old(devices), e, addr)
    {
      if e.key == SW_REG {
        MatchRegisters(e, addr);
      } else {
        var i := e.devices[0];
        devices := devices[i := devices[i].(baseAddr := Some(addr))];
      }
    }

    /** The last loop: hand out relative addresses and the devices' base addresses. */
    method AssignAddresses(base: int, alignment: int)
      requires alignment > 0
      requires forall k :: 0 <= k < |memoryMap| ==> RefsValid(memoryMap[k], |devices|)
      modifies this
      ensures memoryMap == WithAddresses(old(memoryMap), alignment)
      ensures devices == ApplyAll(old(devices), old(memoryMap), |old(memoryMap)|, base, alignment)
    {
      ghost var m, ds := memoryMap, devices;
      var relative := 0;
      for k := 0 to |memoryMap|
        invariant Placed(m, ds, k, relative, base, alignment)
      {
        relative := AssignNext(m, ds, k, relative, base, alignment);
      }
    }

    /** The first k interfaces have been placed. */
    ghost predicate Placed(m: seq<Interface>, ds: seq<AxiDevice>, k: nat, relative: int, base: int, alignment: int)
      requires alignment > 0
      reads this
    {
      && k <= |m| && |memoryMap| == |m| && |devices| == |ds|
      && memoryMap[..k] == WithAddresses(m, alignment)[..k] && memoryMap[k..] == m[k..]
      && relative == Address(Sizes(m), k, alignment)
      && devices == ApplyAll(ds, m, k, base, alignment)
    }

    method AssignNext(ghost m: seq<Interface>, ghost ds: seq<AxiDevice>, k: nat, relative: int, base: int, alignment: int)
      returns (next: int)
      requires alignment > 0 && k < |m| && RefsValid(m[k], |ds|)
      requires Placed(m, ds, k, relative, base, alignment)
      modifies this
      ensures Placed(m, ds, k + 1, next, base, alignment)
    {
      var e := memoryMap[k];
      assert e == memoryMap[k..][0] == m[k];
      ApplyStep(ds, m, k, base, alignment);
      ReplaceNext(memoryMap, WithAddresses(m, alignment), m, k);
      memoryMap := memoryMap[k := e.(relative := relative)];
      AssignEntry(e, base + relative);
      next := relative + alignment * CeilDiv(e.size, alignment);
    }

    /** axi4lite_memory_map on a fresh map. It fails exactly if some interface has no bytes, and otherwise leaves the
        interfaces rounded, ordered and addressed, and the devices with the base addresses that follow from the map. */
    method Axi4liteMemoryMap(base: int, alignment: int) returns (outcome: Outcome)
      requires alignment > 0 && Registered(devices) && memoryMap == []
      modifies this
      ensures outcome.Done? <==> NoneEmpty(old(devices))
      ensures outcome.Done? ==> Finished(old(devices), memoryMap, devices, base, alignment)
      ensures outcome.Done? ==>
                && AllSized(Gang(old(devices), |old(devices)|))
                && memoryMap == WithAddresses(Order(old(devices)), alignment)
                && devices == Addressed(old(devices), base, alignment)
    {
      ghost var ds := devices;
      AllSizedIff(ds);
      GangRefs(ds, |ds|);
      GangDevices();
      outcome := RoundSizes();
      if outcome.Done? {
        OrderedRefs(Gang(ds, |ds|), |ds|);
        MapIsFinished(ds, base, alignment);
        OrderEntries();
        AssignAddresses(base, alignment);
      }
    }
  }
}

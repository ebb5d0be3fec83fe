/** Building the AXI4-Lite memory map: software registers are ganged into one interface, every other device gets its
    own, and the interfaces are rounded, ordered and addressed. Device objects are held in registration order and
    referred to by their position, which stands for object identity. */
module AxiMap {
  import opened Wrappers

  const TYPECODE_SWREG := 0
  const TYPECODE_BRAM := 4
  const SW_REG := "sw_reg"

  datatype Register = Register(name: string, nbytes: int, offset: int)

  datatype AxiDevice = AxiDevice(regname: string, nbytes: int, typecode: int, mode: string, memoryMap: seq<Register>,
                                 baseAddr: Option<int>) {
    predicate IsSwReg() { typecode == TYPECODE_SWREG }

    /** Ends up under the key the software registers share, by kind or by name. */
    predicate Ganged() { IsSwReg() || regname == SW_REG }
  }

  /** One entry of the memory map dictionary. */
  datatype Interface = Interface(key: string, size: int, registers: seq<Register>, devices: seq<nat>, relative: int)

  // ---------------------------------------------------------------------------------------------------------
  // The insertion-ordered dictionary
  // ---------------------------------------------------------------------------------------------------------

  ghost function Keys(m: seq<Interface>): set<string> {
    set k | 0 <= k < |m| :: m[k].key
  }

  /** Where a key is stored, -1 if it is not there. */
  function IndexOf(m: seq<Interface>, key: string): (i: int)
    ensures -1 <= i < |m|
    ensures i >= 0 ==> m[i].key == key
    ensures i >= 0 <==> key in Keys(m)
  {
    if m == [] then -1
    else if m[|m| - 1].key == key then |m| - 1
    else IndexOf(m[..|m| - 1], key)
  }

  /** m[e.key] = e: an existing key keeps its place. */
  function Put(m: seq<Interface>, e: Interface): seq<Interface> {
    var i := IndexOf(m, e.key);
    if i >= 0 then m[i := e] else m + [e]
  }

  ghost predicate DistinctKeys(m: seq<Interface>) {
    forall i, j :: 0 <= i < j < |m| ==> m[i].key != m[j].key
  }

  // ---------------------------------------------------------------------------------------------------------
  // Ganging
  // ---------------------------------------------------------------------------------------------------------

  /** Device i joins the shared interface behind what is already there; its register moves to that offset. */
  function Join(e: Interface, d: AxiDevice, i: nat): Interface
    requires d.memoryMap != []
  {
    e.(size := e.size + d.nbytes, registers := e.registers + Moved(d, e.size), devices := e.devices + [i])
  }

  /** A device's register list with its first register moved. */
  function Moved(d: AxiDevice, offset: int): (regs: seq<Register>)
    requires d.memoryMap != []
    ensures |regs| == |d.memoryMap| && forall p :: 0 <= p < |regs| ==> regs[p].name == d.memoryMap[p].name
  {
    d.memoryMap[0 := d.memoryMap[0].(offset := offset)]
  }

  function Own(d: AxiDevice, key: string, i: nat): Interface {
    Interface(key, d.nbytes, d.memoryMap, [i], 0)
  }

  /** The memory map after one more device. */
  function GangOne(m: seq<Interface>, d: AxiDevice, i: nat): seq<Interface>
    requires d.memoryMap != []
  {
    if d.IsSwReg() then
      var j := IndexOf(m, SW_REG);
      if j == -1 then m + [Own(d, SW_REG, i)] else m[j := Join(m[j], d, i)]
    else Put(m, Own(d, d.regname, i))
  }

  ghost predicate Registered(ds: seq<AxiDevice>) {
    && (forall i :: 0 <= i < |ds| ==> ds[i].memoryMap != [])
    && (forall i, j :: 0 <= i < j < |ds| ==> ds[i].regname != ds[j].regname)
  }

  /** The memory map after the first n devices. */
  function Gang(ds: seq<AxiDevice>, n: nat): seq<Interface>
    requires n <= |ds| && forall i :: 0 <= i < |ds| ==> ds[i].memoryMap != []
  {
    if n == 0 then [] else GangOne(Gang(ds, n - 1), ds[n - 1], n - 1)
  }

  /** A device after ganging: software registers, block RAMs and raw devices lose their own register list. */
  function Stripped(d: AxiDevice): AxiDevice {
    if d.IsSwReg() || d.typecode == TYPECODE_BRAM || d.mode == "raw" then d.(memoryMap := []) else d
  }

  // ---------------------------------------------------------------------------------------------------------
  // What ganging achieves
  // ---------------------------------------------------------------------------------------------------------

  /** Devices that share an interface carry one register of their own name and size. */
  ghost predicate SingleRegister(d: AxiDevice) {
    d.memoryMap == [Register(d.regname, d.nbytes, 0)]
  }

  ghost predicate GangedAreSingle(ds: seq<AxiDevice>) {
    forall i :: 0 <= i < |ds| && ds[i].Ganged() ==> SingleRegister(ds[i])
  }

  /** No device of another kind takes the shared key after a software register has used it. */
  ghost predicate NoClobber(ds: seq<AxiDevice>) {
    forall i, j :: 0 <= i < j < |ds| && ds[i].IsSwReg() && ds[j].regname == SW_REG ==> ds[j].IsSwReg()
  }

  /** The devices under the shared key after the first n: software registers join, a device of another kind called
      sw_reg starts over. */
  function GangList(ds: seq<AxiDevice>, n: nat): seq<nat>
    requires n <= |ds|
  {
    if n == 0 then []
    else if ds[n - 1].IsSwReg() then GangList(ds, n - 1) + [n - 1]
    else if ds[n - 1].regname == SW_REG then [n - 1]
    else GangList(ds, n - 1)
  }

  /** A later device of another kind has taken the shared key. */
  ghost predicate Displaced(ds: seq<AxiDevice>, n: nat, i: nat)
    requires n <= |ds|
  {
    exists j :: i < j < n && !ds[j].IsSwReg() && ds[j].regname == SW_REG
  }

  ghost predicate Indexes(gs: seq<nat>, ds: seq<AxiDevice>) {
    forall k :: 0 <= k < |gs| ==> gs[k] < |ds|
  }

  /** Bytes taken by the first k of the listed devices. */
  function Offset(ds: seq<AxiDevice>, gs: seq<nat>, k: nat): int
    requires k <= |gs| && Indexes(gs, ds)
  {
    if k == 0 then 0 else Offset(ds, gs, k - 1) + ds[gs[k - 1]].nbytes
  }

  /** The registers of the first k of the listed devices: the first device's list as it is, the first register of every
      other list moved to where the sizes before it end. */
  function SharedRegisters(ds: seq<AxiDevice>, gs: seq<nat>, k: nat): seq<Register>
    requires k <= |gs| && Indexes(gs, ds) && forall i :: 0 <= i < |ds| ==> ds[i].memoryMap != []
  {
    if k == 0 then []
    else if k == 1 then ds[gs[0]].memoryMap
    else SharedRegisters(ds, gs, k - 1) + Moved(ds[gs[k - 1]], Offset(ds, gs, k - 1))
  }

  /** The shared interface holds the listed devices and nothing else. */
  ghost predicate IsGang(e: Interface, ds: seq<AxiDevice>, gs: seq<nat>) {
    && Indexes(gs, ds) && e.key == SW_REG && e.devices == gs && e.relative == 0
    && e.size == Offset(ds, gs, |gs|)
    && (forall i :: 0 <= i < |ds| ==> ds[i].memoryMap != [])
    && e.registers == SharedRegisters(ds, gs, |gs|)
  }

  lemma {:induction false} GangListMembers(ds: seq<AxiDevice>, n: nat)
    requires n <= |ds|
    ensures Indexes(GangList(ds, n), ds)
    ensures forall i :: i in GangList(ds, n) <==> 0 <= i < n && ds[i].Ganged() && !Displaced(ds, n, i)
    ensures forall j, k :: 0 <= j < k < |GangList(ds, n)| ==> GangList(ds, n)[j] < GangList(ds, n)[k]
  {
    if n > 0 {
      GangListMembers(ds, n - 1);
      var g := GangList(ds, n - 1);
      assert forall j :: 0 <= j < |g| ==> g[j] in g;
      forall i | 0 <= i < n - 1
        ensures Displaced(ds, n, i) <==> Displaced(ds, n - 1, i) || (!ds[n - 1].IsSwReg() && ds[n - 1].regname == SW_REG)
      {
      }
    }
  }

  lemma {:induction false} OffsetExtends(ds: seq<AxiDevice>, gs: seq<nat>, g: nat, k: nat)
    requires k <= |gs| && Indexes(gs, ds) && g < |ds|
    ensures Indexes(gs + [g], ds) && Offset(ds, gs + [g], k) == Offset(ds, gs, k)
  {
    if k > 0 {
      OffsetExtends(ds, gs, g, k - 1);
    }
  }

  lemma {:induction false} SharedExtends(ds: seq<AxiDevice>, gs: seq<nat>, g: nat, k: nat)
    requires k <= |gs| && Indexes(gs, ds) && g < |ds| && forall i :: 0 <= i < |ds| ==> ds[i].memoryMap != []
    ensures Indexes(gs + [g], ds) && SharedRegisters(ds, gs + [g], k) == SharedRegisters(ds, gs, k)
  {
    if k > 1 {
      SharedExtends(ds, gs, g, k - 1);
      OffsetExtends(ds, gs, g, k - 1);
    }
  }

  lemma {:induction false} JoinGang(e: Interface, ds: seq<AxiDevice>, gs: seq<nat>, g: nat)
    requires IsGang(e, ds, gs) && gs != [] && g < |ds|
    ensures IsGang(Join(e, ds[g], g), ds, gs + [g])
  {
    OffsetExtends(ds, gs, g, |gs|);
    SharedExtends(ds, gs, g, |gs|);
  }

  lemma {:induction false} StartGang(ds: seq<AxiDevice>, g: nat)
    requires g < |ds| && forall i :: 0 <= i < |ds| ==> ds[i].memoryMap != []
    ensures IsGang(Own(ds[g], SW_REG, g), ds, [g])
  {
    assert Offset(ds, [g], 0) == 0;
    assert Offset(ds, [g], 1) == ds[g].nbytes;
  }

  /** The map after n devices: one shared interface holding the devices under the shared key, one for each other device,
      and nothing else. */
  ghost predicate Collected(m: seq<Interface>, ds: seq<AxiDevice>, n: nat)
    requires n <= |ds|
  {
    && DistinctKeys(m)
    && EntriesBelong(m, ds, n)
    && OwnersPresent(m, ds, n)
    && (GangList(ds, n) != [] <==> SW_REG in Keys(m))
  }

  ghost predicate EntriesBelong(m: seq<Interface>, ds: seq<AxiDevice>, n: nat)
    requires n <= |ds|
  {
    forall k :: 0 <= k < |m| ==> Belongs(m[k], ds, n)
  }

  ghost predicate Belongs(e: Interface, ds: seq<AxiDevice>, n: nat)
    requires n <= |ds|
  {
    if e.key == SW_REG then IsGang(e, ds, GangList(ds, n)) else OwnEntry(e, ds, n)
  }

  ghost predicate OwnersPresent(m: seq<Interface>, ds: seq<AxiDevice>, n: nat)
    requires n <= |ds|
  {
    forall i :: 0 <= i < n && !ds[i].Ganged() ==> ds[i].regname in Keys(m)
  }

  ghost predicate OwnEntry(e: Interface, ds: seq<AxiDevice>, n: nat)
    requires n <= |ds|
  {
    exists i :: 0 <= i < n && !ds[i].Ganged() && e == Own(ds[i], ds[i].regname, i)
  }

  /** Appending a new key or rewriting an entry under its own key keeps the dictionary a dictionary. */
  lemma {:induction false} KeysAfterAppend(m: seq<Interface>, e: Interface)
    requires DistinctKeys(m) && e.key !in Keys(m)
    ensures DistinctKeys(m + [e])
    ensures Keys(m + [e]) == Keys(m) + {e.key}
  {
    var u := m + [e];
    forall key | key in Keys(m) + {e.key} ensures key in Keys(u) {
      if key in Keys(m) {
        var k :| 0 <= k < |m| && m[k].key == key;
        assert u[k].key == key;
      } else {
        assert u[|m|].key == key;
      }
    }
  }

  lemma {:induction false} KeysAfterUpdate(m: seq<Interface>, j: nat, e: Interface)
    requires DistinctKeys(m) && j < |m| && e.key == m[j].key
    ensures DistinctKeys(m[j := e])
    ensures Keys(m[j := e]) == Keys(m)
    ensures forall k :: 0 <= k < |m| && k != j ==> m[k].key != e.key
  {
    var u := m[j := e];
    assert forall k :: 0 <= k < |m| ==> u[k].key == m[k].key;
    forall key | key in Keys(m) ensures key in Keys(u) {
      var k :| 0 <= k < |m| && m[k].key == key;
      assert u[k].key == key;
    }
    forall k | 0 <= k < |m| && k != j ensures m[k].key != e.key {
      if k < j { assert m[k].key != m[j].key; } else { assert m[j].key != m[k].key; }
    }
  }

  lemma {:induction false} BelongsGrows(e: Interface, ds: seq<AxiDevice>, n: nat)
    requires n < |ds| && Belongs(e, ds, n) && (e.key == SW_REG ==> !ds[n].Ganged())
    ensures Belongs(e, ds, n + 1)
  {
    if e.key != SW_REG {
      var i :| 0 <= i < n && !ds[i].Ganged() && e == Own(ds[i], ds[i].regname, i);
    }
  }

  /** A device that is not ganged brings a new key. */
  lemma {:induction false} OwnKeyIsNew(m: seq<Interface>, ds: seq<AxiDevice>, n: nat)
    requires n < |ds| && Registered(ds) && EntriesBelong(m, ds, n) && !ds[n].Ganged()
    ensures ds[n].regname !in Keys(m)
  {
    forall k | 0 <= k < |m| ensures m[k].key != ds[n].regname {
      assert Belongs(m[k], ds, n);
      if m[k].key != SW_REG {
        var i :| 0 <= i < n && !ds[i].Ganged() && m[k] == Own(ds[i], ds[i].regname, i);
      }
    }
  }

  /** A new entry, the earlier ones still belonging, and the new device's key present. */
  lemma {:induction false} AppendCollects(m: seq<Interface>, e: Interface, ds: seq<AxiDevice>, n: nat)
    requires n < |ds| && DistinctKeys(m) && OwnersPresent(m, ds, n) && e.key !in Keys(m)
    requires GangList(ds, n + 1) != [] <==> SW_REG in Keys(m) || e.key == SW_REG
    requires EntriesBelong(m, ds, n + 1) && Belongs(e, ds, n + 1)
    requires !ds[n].Ganged() ==> e.key == ds[n].regname
    ensures Collected(m + [e], ds, n + 1)
  {
    AppendOwners(m, e, ds, n);
    AppendBelongs(m, e, ds, n + 1);
  }

  lemma {:induction false} AppendOwners(m: seq<Interface>, e: Interface, ds: seq<AxiDevice>, n: nat)
    requires n < |ds| && DistinctKeys(m) && OwnersPresent(m, ds, n) && e.key !in Keys(m)
    requires !ds[n].Ganged() ==> e.key == ds[n].regname
    ensures DistinctKeys(m + [e]) && OwnersPresent(m + [e], ds, n + 1) && Keys(m + [e]) == Keys(m) + {e.key}
  {
    KeysAfterAppend(m, e);
  }

  lemma {:induction false} AppendBelongs(m: seq<Interface>, e: Interface, ds: seq<AxiDevice>, n: nat)
    requires n <= |ds| && EntriesBelong(m, ds, n) && Belongs(e, ds, n)
    ensures EntriesBelong(m + [e], ds, n)
  {
    forall k | 0 <= k < |m + [e]| ensures Belongs((m + [e])[k], ds, n) {
      if k < |m| {
        assert (m + [e])[k] == m[k];
        assert Belongs(m[k], ds, n);
      }
    }
  }

  lemma {:induction false} AddOwn(m: seq<Interface>, ds: seq<AxiDevice>, n: nat)
    requires n < |ds| && Registered(ds) && Collected(m, ds, n) && !ds[n].Ganged()
    ensures Collected(GangOne(m, ds[n], n), ds, n + 1)
  {
    OwnKeyIsNew(m, ds, n);
    forall k | 0 <= k < |m| ensures Belongs(m[k], ds, n + 1) {
      BelongsGrows(m[k], ds, n);
    }
    AppendCollects(m, Own(ds[n], ds[n].regname, n), ds, n);
  }

  /** The shared interface starts, under a new key. */
  lemma {:induction false} AddFirstGanged(m: seq<Interface>, ds: seq<AxiDevice>, n: nat)
    requires n < |ds| && Registered(ds) && Collected(m, ds, n) && ds[n].Ganged() && SW_REG !in Keys(m)
    ensures Collected(m + [Own(ds[n], SW_REG, n)], ds, n + 1)
  {
    assert GangList(ds, n + 1) == [n];
    StartGang(ds, n);
    forall k | 0 <= k < |m| ensures Belongs(m[k], ds, n + 1) {
      BelongsGrows(m[k], ds, n);
    }
    AppendCollects(m, Own(ds[n], SW_REG, n), ds, n);
  }

  /** The entry under the shared key changes. */
  lemma {:induction false} UpdateCollects(m: seq<Interface>, e: Interface, ds: seq<AxiDevice>, n: nat, j: nat)
    requires n < |ds| && Collected(m, ds, n) && ds[n].Ganged() && j < |m| && m[j].key == SW_REG == e.key
    requires IsGang(e, ds, GangList(ds, n + 1)) && GangList(ds, n + 1) != []
    ensures Collected(m[j := e], ds, n + 1)
  {
    var u := m[j := e];
    KeysAfterUpdate(m, j, e);
    forall k | 0 <= k < |u| ensures Belongs(u[k], ds, n + 1) {
      if k != j { BelongsGrows(m[k], ds, n); }
    }
  }

  lemma {:induction false} AddJoining(m: seq<Interface>, ds: seq<AxiDevice>, n: nat, j: nat)
    requires n < |ds| && Collected(m, ds, n) && ds[n].IsSwReg() && j < |m| && m[j].key == SW_REG
    ensures ds[n].memoryMap != [] && Collected(m[j := Join(m[j], ds[n], n)], ds, n + 1)
  {
    assert Belongs(m[j], ds, n) && m[j].key in Keys(m);
    JoinGang(m[j], ds, GangList(ds, n), n);
    UpdateCollects(m, Join(m[j], ds[n], n), ds, n, j);
  }

  /** A device of another kind takes the shared key: whatever was there is lost. */
  lemma {:induction false} AddReplacing(m: seq<Interface>, ds: seq<AxiDevice>, n: nat, j: nat)
    requires n < |ds| && Registered(ds) && Collected(m, ds, n) && !ds[n].IsSwReg() && ds[n].regname == SW_REG
    requires j < |m| && m[j].key == SW_REG
    ensures Collected(m[j := Own(ds[n], SW_REG, n)], ds, n + 1)
  {
    StartGang(ds, n);
    UpdateCollects(m, Own(ds[n], SW_REG, n), ds, n, j);
  }

  /** For every registered list, ganging collects exactly the devices that are not displaced. */
  lemma {:induction false} GangCollects(ds: seq<AxiDevice>, n: nat)
    requires n <= |ds| && Registered(ds)
    ensures Collected(Gang(ds, n), ds, n)
  {
    if n > 0 {
      GangCollects(ds, n - 1);
      CollectNext(Gang(ds, n - 1), ds, n - 1);
    }
  }

  lemma {:induction false} CollectNext(m: seq<Interface>, ds: seq<AxiDevice>, n: nat)
    requires n < |ds| && Registered(ds) && Collected(m, ds, n)
    ensures Collected(GangOne(m, ds[n], n), ds, n + 1)
  {
    if !ds[n].Ganged() {
      AddOwn(m, ds, n);
    } else if SW_REG !in Keys(m) {
      AddFirstGanged(m, ds, n);
    } else if ds[n].IsSwReg() {
      AddJoining(m, ds, n, IndexOf(m, SW_REG));
    } else {
      AddReplacing(m, ds, n, IndexOf(m, SW_REG));
    }
  }

  // ---------------------------------------------------------------------------------------------------------
  // The lost register
  // ---------------------------------------------------------------------------------------------------------

  /** No interface refers to device i. */
  ghost predicate Unlisted(m: seq<Interface>, i: nat) {
    forall k :: 0 <= k < |m| ==> i !in m[k].devices
  }

  /** Displaced devices are in no interface. */
  lemma {:induction false} DisplacedIsUnlisted(ds: seq<AxiDevice>, n: nat, i: nat)
    requires i < n <= |ds| && Registered(ds) && ds[i].Ganged() && Displaced(ds, n, i)
    ensures Unlisted(Gang(ds, n), i)
  {
    var m := Gang(ds, n);
    GangCollects(ds, n);
    GangListMembers(ds, n);
    forall k | 0 <= k < |m| ensures i !in m[k].devices {
      assert Belongs(m[k], ds, n);
      if m[k].key != SW_REG {
        var q :| 0 <= q < n && !ds[q].Ganged() && m[k] == Own(ds[q], ds[q].regname, q);
      }
    }
  }
}

/** Wishbone devices and instances as objects, and the order in which the two passes of `wb_compute` visit them. */
module WbSlots {
  import Text
  import opened WbPlacement
  import opened Wrappers

  /** A Wishbone slave. The three variables are filled in by the module that instantiates it. */
  class WbDevice {
    const request: Request
    /** hdl_suffix: what is appended to the names of the device's ports. */
    const suffix: string
    var baseAddr: int
    var highAddr: int
    var subArbId: int

    constructor (request: Request, suffix: string)
      ensures this.request == request && this.suffix == suffix && subArbId == 0
    {
      this.request, this.suffix := request, suffix;
      baseAddr, highAddr, subArbId := 0, 0, 0;
    }

    function Range(): Window
      reads this
    {
      Window(baseAddr, highAddr)
    }

    /** The suffix as it ends up in port names, which lose their trailing blanks. */
    function PortSuffix(): string {
      Text.StripEnd(suffix, ' ')
    }
  }

  /** The localparam <INSTANCE>_WBID<n>. */
  datatype WbId = WbId(instance: string, index: nat)

  /** A child instance with its slave interfaces. */
  class Instance {
    const name: string
    const wbDevices: seq<WbDevice>
    var wbIds: seq<WbId>
    /** The identifier the strobe, data and acknowledge ports with a given suffix are connected to. */
    var wired: map<string, WbId>

    constructor (name: string, wbDevices: seq<WbDevice>)
      ensures this.name == name && this.wbDevices == wbDevices && wbIds == [] && wired == map[]
    {
      this.name, this.wbDevices, wbIds, wired := name, wbDevices, [], map[];
    }
  }

  datatype Block = Block(name: string, instances: seq<Instance>)

  datatype Outcome = Done | IndexError | ImmutableError

  // ---------------------------------------------------------------------------------------------------------
  // Visit order
  // ---------------------------------------------------------------------------------------------------------

  function Upper(s: string): string {
    seq(|s|, i requires 0 <= i < |s| =>
      if 'a' <= s[i] <= 'z' then (s[i] as int - 32) as char else s[i])
  }

  /** Letter by letter, small letters become the capital ones and nothing else changes. */
  lemma {:induction false} UpperAt(s: string, i: nat)
    requires i < |s|
    ensures |Upper(s)| == |s|
    ensures s[i] !in Text.LOWER ==> Upper(s)[i] == s[i]
    ensures forall k :: 0 <= k < 26 && s[i] == Text.LOWER[k] ==> Upper(s)[i] == Text.UPPER[k]
  {
    forall k | 0 <= k < 26 && s[i] == Text.LOWER[k] ensures Upper(s)[i] == Text.UPPER[k] {
      Text.Alphabets(k);
    }
    if 'a' <= s[i] <= 'z' {
      var k := s[i] as int - 'a' as int;
      Text.Alphabets(k);
      assert Text.LOWER[k] == s[i];
    }
  }

  /** A device together with the localparam its ports are wired to. */
  datatype Slot = Slot(id: WbId, device: WbDevice)

  function SlotsOf(inst: Instance): (s: seq<Slot>)
    ensures |s| == |inst.wbDevices|
    ensures forall n :: 0 <= n < |s| ==> s[n] == Slot(WbId(Upper(inst.name), n), inst.wbDevices[n])
  {
    seq(|inst.wbDevices|, n requires 0 <= n < |inst.wbDevices| =>
      Slot(WbId(Upper(inst.name), n), inst.wbDevices[n]))
  }

  function Slots(insts: seq<Instance>): seq<Slot> {
    if insts == [] then [] else Slots(insts[..|insts| - 1]) + SlotsOf(insts[|insts| - 1])
  }

  /** The slots one pass acts on: those with a requested offset, or those without. */
  function Wanted(slots: seq<Slot>, fixed: bool): seq<Slot> {
    if slots == [] then []
    else
      var last := slots[|slots| - 1];
      Wanted(slots[..|slots| - 1], fixed) + (if last.device.request.Fixed() == fixed then [last] else [])
  }

  function Ids(slots: seq<Slot>): (ids: seq<WbId>)
    ensures |ids| == |slots|
  {
    seq(|slots|, k requires 0 <= k < |slots| => slots[k].id)
  }

  function Devices(slots: seq<Slot>): (ds: seq<WbDevice>)
    ensures |ds| == |slots|
  {
    seq(|slots|, k requires 0 <= k < |slots| => slots[k].device)
  }

  function Requests(slots: seq<Slot>): (rs: seq<Request>)
    ensures |rs| == |slots|
  {
    seq(|slots|, k requires 0 <= k < |slots| => slots[k].device.request)
  }

  /** Requested devices come before the others. */
  ghost predicate FixedFirst(slots: seq<Slot>) {
    forall i, j :: 0 <= i < j < |slots| && slots[j].device.request.Fixed() ==> slots[i].device.request.Fixed()
  }

  ghost predicate DistinctIds(slots: seq<Slot>) {
    forall i, j :: 0 <= i < j < |slots| ==> slots[i].id != slots[j].id
  }

  ghost predicate DistinctDevices(slots: seq<Slot>) {
    forall i, j :: 0 <= i < j < |slots| ==> slots[i].device != slots[j].device
  }

  lemma {:induction false} WantedSplits(s: seq<Slot>, t: seq<Slot>, fixed: bool)
    ensures Wanted(s + t, fixed) == Wanted(s, fixed) + Wanted(t, fixed)
  {
    if t == [] {
      assert s + t == s;
    } else {
      assert (s + t)[..|s + t| - 1] == s + t[..|t| - 1];
      WantedSplits(s, t[..|t| - 1], fixed);
    }
  }

  lemma {:induction false} WantedStep(s: seq<Slot>, n: nat, fixed: bool)
    requires n < |s|
    ensures Wanted(s[..n + 1], fixed) ==
              Wanted(s[..n], fixed) + (if s[n].device.request.Fixed() == fixed then [s[n]] else [])
    ensures Wanted(s[..n + 1], fixed) <= Wanted(s, fixed)
  {
    assert s[..n + 1][..n] == s[..n];
    assert s == s[..n + 1] + s[n + 1..];
    WantedSplits(s[..n + 1], s[n + 1..], fixed);
  }

  /** A selection is drawn from the slots it selects from, in order. */
  lemma {:induction false} WantedMembers(s: seq<Slot>, fixed: bool)
    ensures |Wanted(s, fixed)| <= |s|
    ensures forall k :: 0 <= k < |Wanted(s, fixed)| ==>
              Wanted(s, fixed)[k] in s && Wanted(s, fixed)[k].device.request.Fixed() == fixed
  {
    if s != [] {
      WantedMembers(s[..|s| - 1], fixed);
    }
  }

  lemma {:induction false} WantedFull(s: seq<Slot>, fixed: bool)
    requires |Wanted(s, fixed)| == |s|
    ensures forall k :: 0 <= k < |s| ==> s[k].device.request.Fixed() == fixed
  {
    if s != [] {
      WantedMembers(s[..|s| - 1], fixed);
      WantedFull(s[..|s| - 1], fixed);
    }
  }

  lemma {:induction false} WantedAll(s: seq<Slot>, fixed: bool)
    requires forall k :: 0 <= k < |s| ==> s[k].device.request.Fixed() == fixed
    ensures Wanted(s, fixed) == s
  {
    if s != [] {
      WantedAll(s[..|s| - 1], fixed);
      assert s == s[..|s| - 1] + [s[|s| - 1]];
    }
  }

  lemma {:induction false} WantedNone(s: seq<Slot>, fixed: bool)
    requires forall k :: 0 <= k < |s| ==> s[k].device.request.Fixed() != fixed
    ensures Wanted(s, fixed) == []
  {
    if s != [] {
      WantedNone(s[..|s| - 1], fixed);
    }
  }

  /** If nothing is wanted beyond as many slots as are wanted, then exactly the first ones are. */
  lemma {:induction false} InRangeIsPrefix(s: seq<Slot>, c: nat)
    requires c == |Wanted(s, true)|
    requires forall n :: 0 <= n < |s| && s[n].device.request.Fixed() ==> n < c
    ensures FixedFirst(s)
  {
    WantedMembers(s, true);
    var p, q := s[..c], s[c..];
    assert s == p + q;
    WantedSplits(p, q, true);
    WantedNone(q, true);
    WantedFull(p, true);
    forall i, j | 0 <= i < j < |s| && s[j].device.request.Fixed() ensures s[i].device.request.Fixed() {
      assert p[i] == s[i];
    }
  }

  /** Slots that list requested devices first split into the two passes in order. */
  lemma {:induction false} PrefixSplits(s: seq<Slot>) returns (c: nat)
    requires FixedFirst(s)
    ensures c <= |s| && Wanted(s, true) == s[..c] && Wanted(s, false) == s[c..]
    ensures forall n :: 0 <= n < |s| ==> (s[n].device.request.Fixed() <==> n < c)
  {
    c := 0;
    while c < |s| && s[c].device.request.Fixed()
      invariant c <= |s| && forall n :: 0 <= n < c ==> s[n].device.request.Fixed()
    {
      c := c + 1;
    }
    var p, q := s[..c], s[c..];
    assert s == p + q;
    WantedSplits(p, q, true);
    WantedSplits(p, q, false);
    WantedAll(p, true);
    WantedNone(p, false);
    WantedNone(q, true);
    WantedAll(q, false);
  }

  /** The lookup wb_ids[n] of the first pass stays in range exactly when requested devices come first. */
  lemma {:induction false} LookupInRangeIff(s: seq<Slot>)
    ensures FixedFirst(s) <==>
              forall n :: 0 <= n < |s| && s[n].device.request.Fixed() ==> n < |Wanted(s, true)|
  {
    if FixedFirst(s) {
      var c := PrefixSplits(s);
    } else if forall n :: 0 <= n < |s| && s[n].device.request.Fixed() ==> n < |Wanted(s, true)| {
      InRangeIsPrefix(s, |Wanted(s, true)|);
    }
  }

  /** Slots selected earlier belong to other devices. */
  lemma {:induction false} WantedBefore(s: seq<Slot>, n: nat, fixed: bool)
    requires DistinctDevices(s) && n < |s|
    ensures forall k :: 0 <= k < |Wanted(s[..n], fixed)| ==> Wanted(s[..n], fixed)[k].device != s[n].device
  {
    var w := Wanted(s[..n], fixed);
    WantedMembers(s[..n], fixed);
    forall k | 0 <= k < |w| ensures w[k].device != s[n].device {
      assert w[k] in s[..n];
      var q :| 0 <= q < n && s[..n][q] == w[k];
    }
  }

  // ---------------------------------------------------------------------------------------------------------
  // Visited state
  // ---------------------------------------------------------------------------------------------------------

  /** The state reached after the slots `v` have been visited: addresses, arbiter numbers and localparams follow
      from the visit order alone. */
  ghost predicate Addressed(v: seq<Slot>, ws: seq<Window>)
    reads set x | x in v :: x.device
  {
    |ws| == |v| && forall k :: 0 <= k < |v| ==> v[k].device.Range() == ws[k]
  }

  ghost predicate Arbitrated(v: seq<Slot>, start: nat, max: Option<int>)
    requires max.Some? ==> max.value > 0
    reads set x | x in v :: x.device
  {
    max.Some? ==> forall k :: 0 <= k < |v| ==> v[k].device.subArbId == (start + k) / max.value
  }

  ghost predicate Numbered(v: seq<Slot>, params: map<WbId, int>) {
    && (forall k :: 0 <= k < |v| ==> v[k].id in params && params[v[k].id] == k)
    && (forall id :: id in params ==> exists k :: 0 <= k < |v| && v[k].id == id)
  }

  ghost predicate SameDevices(v: seq<Slot>, w: seq<Slot>) {
    |v| == |w| && forall k :: 0 <= k < |v| ==> v[k].device == w[k].device
  }

  /** The identifiers the second loop will look up: right ones if requested devices come first; otherwise some
      lookup is out of range. */
  ghost predicate IdsReady(s: seq<Slot>, fixed: bool, ids: seq<WbId>) {
    && (FixedFirst(s) ==>
          forall n :: 0 <= n < |s| && s[n].device.request.Fixed() == fixed ==> n < |ids| && ids[n] == s[n].id)
    && (!FixedFirst(s) ==> exists n :: |ids| <= n < |s| && s[n].device.request.Fixed() == fixed)
  }

  /** Progress of the second loop over the slots `s`: after n devices it has placed `placed`, under the identifiers
      it looked up. */
  ghost predicate Walked(s: seq<Slot>, n: nat, fixed: bool, ids: seq<WbId>, placed: seq<Slot>)
    requires n <= |s|
  {
    && SameDevices(placed, Wanted(s[..n], fixed))
    && (FixedFirst(s) ==> placed == Wanted(s[..n], fixed))
    && forall m :: 0 <= m < n && s[m].device.request.Fixed() == fixed ==> m < |ids|
  }

  /** One more wanted device, found in range: it is new, the walk goes on, and in an instance in order a repeated
      identifier means the slots' identifiers are not distinct. */
  lemma {:induction false} WalkOn(v: seq<Slot>, s: seq<Slot>, n: nat, fixed: bool, ids: seq<WbId>, placed: seq<Slot>)
    requires n < |s| && Walked(s, n, fixed, ids, placed) && IdsReady(s, fixed, ids)
    requires s[n].device.request.Fixed() == fixed && n < |ids|
    requires DistinctDevices(v + Wanted(s, fixed))
    ensures forall k :: 0 <= k < |v + placed| ==> (v + placed)[k].device != s[n].device
    ensures Walked(s, n + 1, fixed, ids, placed + [Slot(ids[n], s[n].device)])
    ensures (exists k :: 0 <= k < |v + placed| && (v + placed)[k].id == ids[n]) ==>
              !FixedFirst(s) || !DistinctIds(v + Wanted(s, fixed))
  {
    var w, all := Wanted(s[..n], fixed), Wanted(s, fixed);
    WantedStep(s, n, fixed);
    assert all[|w|] == s[n];
    var whole := v + all;
    var at := |v| + |w|;
    assert whole[at] == s[n];
    forall k | 0 <= k < at
      ensures whole[k].device == (v + placed)[k].device && whole[k].device != s[n].device
      ensures FixedFirst(s) ==> whole[k] == (v + placed)[k]
    {
      assert whole[k].device != whole[at].device;
      if k >= |v| { assert all[k - |v|] == w[k - |v|]; }
    }
  }

  lemma {:induction false} WalkPast(s: seq<Slot>, n: nat, fixed: bool, ids: seq<WbId>, placed: seq<Slot>)
    requires n < |s| && Walked(s, n, fixed, ids, placed) && s[n].device.request.Fixed() != fixed
    ensures Walked(s, n + 1, fixed, ids, placed)
  {
    WantedStep(s, n, fixed);
  }

  lemma {:induction false} WalkDone(s: seq<Slot>, fixed: bool, ids: seq<WbId>, placed: seq<Slot>)
    requires Walked(s, |s|, fixed, ids, placed) && IdsReady(s, fixed, ids)
    ensures FixedFirst(s) && placed == Wanted(s, fixed)
  {
    assert s[..|s|] == s;
  }

  lemma {:induction false} WantedDevices(inst: Instance, fixed: bool)
    ensures forall k :: 0 <= k < |Wanted(SlotsOf(inst), fixed)| ==>
              Wanted(SlotsOf(inst), fixed)[k].device in inst.wbDevices
  {
    var s := SlotsOf(inst);
    WantedMembers(s, fixed);
    forall k | 0 <= k < |Wanted(s, fixed)| ensures Wanted(s, fixed)[k].device in inst.wbDevices {
      var n :| 0 <= n < |s| && s[n] == Wanted(s, fixed)[k];
      assert s[n].device == inst.wbDevices[n];
    }
  }

  // ---------------------------------------------------------------------------------------------------------
  // Port wiring
  // ---------------------------------------------------------------------------------------------------------

  ghost predicate DistinctSuffixes(s: seq<Slot>) {
    forall i, j :: 0 <= i < j < |s| ==> s[i].device.PortSuffix() != s[j].device.PortSuffix()
  }

  /** The ports of exactly these slots are connected, each to its own identifier. */
  ghost predicate Wired(wired: map<string, WbId>, s: seq<Slot>) {
    && (forall k :: 0 <= k < |s| ==> s[k].device.PortSuffix() in wired && wired[s[k].device.PortSuffix()] == s[k].id)
    && (forall x :: x in wired ==> exists k :: 0 <= k < |s| && s[k].device.PortSuffix() == x)
  }

  /** Two devices name the same port exactly if their port suffixes agree. */
  lemma {:induction false} SamePortIff(port: string, d: WbDevice, e: WbDevice)
    requires port != "" && port[|port| - 1] != ' '
    ensures Text.StripEnd(port + d.suffix, ' ') == Text.StripEnd(port + e.suffix, ' ') <==> d.PortSuffix() == e.PortSuffix()
  {
    Text.StripEndBehind(port, d.suffix, ' ');
    Text.StripEndBehind(port, e.suffix, ' ');
    var x, y := port + d.PortSuffix(), port + e.PortSuffix();
    assert x[|port|..] == d.PortSuffix() && y[|port|..] == e.PortSuffix();
  }

  /** Ports are write-once: connecting a new identifier works exactly if the suffix is new. */
  lemma {:induction false} WiredStep(s: seq<Slot>, x: Slot, wired: map<string, WbId>)
    requires Wired(wired, s) && forall k :: 0 <= k < |s| ==> s[k].id != x.id
    ensures x.device.PortSuffix() in wired ==> wired[x.device.PortSuffix()] != x.id
    ensures x.device.PortSuffix() in wired <==> exists k :: 0 <= k < |s| && s[k].device.PortSuffix() == x.device.PortSuffix()
    ensures x.device.PortSuffix() !in wired ==> Wired(wired[x.device.PortSuffix() := x.id], s + [x])
  {
    var y := x.device.PortSuffix();
    if y !in wired {
      var u := s + [x];
      forall z | z in wired || z == y ensures exists k :: 0 <= k < |u| && u[k].device.PortSuffix() == z {
        if z == y {
          assert u[|s|].device.PortSuffix() == z;
        } else {
          var k :| 0 <= k < |s| && s[k].device.PortSuffix() == z;
          assert u[k].device.PortSuffix() == z;
        }
      }
    }
  }

  lemma {:induction false} WiredDistinct(s: seq<Slot>, wired: map<string, WbId>)
    requires Wired(wired, s) && DistinctIds(s)
    ensures DistinctSuffixes(s)
  {
    forall i, j | 0 <= i < j < |s| ensures s[i].device.PortSuffix() != s[j].device.PortSuffix() {
      assert s[i].id != s[j].id;
    }
  }

  /** The slots wired when the first loop of a pass reaches slot n. */
  ghost function WiredSlots(s: seq<Slot>, n: nat, fixed: bool): seq<Slot>
    requires n <= |s|
  {
    (if fixed then [] else Wanted(s, true)) + Wanted(s[..n], fixed)
  }

  /** They all stand elsewhere in the instance. */
  lemma {:induction false} WiredElsewhere(s: seq<Slot>, n: nat, fixed: bool, k: nat) returns (m: nat)
    requires n < |s| && s[n].device.request.Fixed() == fixed && k < |WiredSlots(s, n, fixed)|
    ensures m < |s| && m != n && s[m] == WiredSlots(s, n, fixed)[k]
  {
    var prior := if fixed then [] else Wanted(s, true);
    if k < |prior| {
      WantedMembers(s, true);
      m :| 0 <= m < |s| && s[m] == prior[k];
    } else {
      WantedMembers(s[..n], fixed);
      m :| 0 <= m < n && s[..n][m] == Wanted(s[..n], fixed)[k - |prior|];
    }
  }

  /** Reaching slot n of an instance: its identifier is new, and a suffix already in use means a repetition. */
  lemma {:induction false} WireNth(inst: Instance, n: nat, fixed: bool, wired: map<string, WbId>)
    requires n < |inst.wbDevices| && inst.wbDevices[n].request.Fixed() == fixed
    requires Wired(wired, WiredSlots(SlotsOf(inst), n, fixed))
    ensures var s, y := SlotsOf(inst), inst.wbDevices[n].PortSuffix();
            && (y in wired ==> wired[y] != s[n].id && !DistinctSuffixes(s))
            && (y !in wired ==> Wired(wired[y := s[n].id], WiredSlots(s, n + 1, fixed)))
  {
    var s := SlotsOf(inst);
    var u := WiredSlots(s, n, fixed);
    forall k | 0 <= k < |u| ensures u[k].id != s[n].id {
      var m := WiredElsewhere(s, n, fixed, k);
    }
    WiredStep(u, s[n], wired);
    WantedStep(s, n, fixed);
    assert WiredSlots(s, n + 1, fixed) == u + [s[n]];
    if inst.wbDevices[n].PortSuffix() in wired {
      var k :| 0 <= k < |u| && u[k].device.PortSuffix() == s[n].device.PortSuffix();
      var m := WiredElsewhere(s, n, fixed, k);
      assert s[if m < n then m else n].device.PortSuffix() == s[if m < n then n else m].device.PortSuffix();
    }
  }

  /** An instance is in order if it lists requested devices first and no two of its devices share a port suffix. */
  ghost predicate InOrder(inst: Instance) {
    FixedFirst(SlotsOf(inst)) && DistinctSuffixes(SlotsOf(inst))
  }

  ghost predicate Orderly(insts: seq<Instance>) {
    forall i :: 0 <= i < |insts| ==> InOrder(insts[i])
  }

  /** Identifiers and wiring of an instance before a pass reaches it: none in the first, those of its requested devices
      in the second. */
  ghost predicate WiredBefore(inst: Instance, fixed: bool, ids: seq<WbId>, wired: map<string, WbId>) {
    var s := SlotsOf(inst);
    if fixed then ids == [] && wired == map[]
    else FixedFirst(s) && ids == Ids(Wanted(s, true)) && Wired(wired, Wanted(s, true))
  }

  /** And after: in the end all of its devices are wired. */
  ghost predicate WiredAfter(inst: Instance, fixed: bool, ids: seq<WbId>, wired: map<string, WbId>) {
    if fixed then WiredBefore(inst, false, ids, wired)
    else FixedFirst(SlotsOf(inst)) && Wired(wired, SlotsOf(inst))
  }

  ghost predicate Before(inst: Instance, fixed: bool)
    reads inst
  {
    WiredBefore(inst, fixed, inst.wbIds, inst.wired)
  }

  ghost predicate After(inst: Instance, fixed: bool)
    reads inst
  {
    WiredAfter(inst, fixed, inst.wbIds, inst.wired)
  }

  lemma {:induction false} BeforeWired(inst: Instance, fixed: bool)
    requires Before(inst, fixed)
    ensures Wired(inst.wired, WiredSlots(SlotsOf(inst), 0, fixed))
  {
    var s := SlotsOf(inst);
    assert s[..0] == [];
    assert WiredSlots(s, 0, fixed) == if fixed then [] else Wanted(s, true);
  }

  lemma {:induction false} AllWired(inst: Instance, fixed: bool)
    requires Wired(inst.wired, WiredSlots(SlotsOf(inst), |inst.wbDevices|, fixed)) && FixedFirst(SlotsOf(inst))
    requires fixed ==> inst.wbIds == Ids(Wanted(SlotsOf(inst), true))
    ensures After(inst, fixed)
  {
    WiredInTheEnd(SlotsOf(inst), fixed);
  }

  lemma {:induction false} WiredInTheEnd(s: seq<Slot>, fixed: bool)
    requires FixedFirst(s)
    ensures WiredSlots(s, |s|, fixed) == if fixed then Wanted(s, true) else s
  {
    assert s[..|s|] == s;
    if fixed {
      assert [] + Wanted(s, true) == Wanted(s, true);
    } else {
      var c := PrefixSplits(s);
      assert s == s[..c] + s[c..];
    }
  }

  lemma {:induction false} AllInOrder(insts: seq<Instance>)
    requires forall i :: 0 <= i < |insts| ==> After(insts[i], false)
    ensures Orderly(insts)
  {
    forall i | 0 <= i < |insts| ensures InOrder(insts[i]) {
      AfterInOrder(insts[i]);
    }
  }

  lemma {:induction false} AfterInOrder(inst: Instance)
    requires After(inst, false)
    ensures InOrder(inst)
  {
    WiredDistinct(SlotsOf(inst), inst.wired);
  }

  /** Once the instance's identifiers are appended, the second loop finds what it needs or runs out of range. */
  lemma {:induction false} IdsAfter(inst: Instance, fixed: bool)
    ensures var s := SlotsOf(inst);
            && (fixed ==> IdsReady(s, fixed, Ids(Wanted(s, true))))
            && (!fixed && FixedFirst(s) ==> IdsReady(s, fixed, Ids(Wanted(s, true)) + Ids(Wanted(s, false))))
  {
    var s := SlotsOf(inst);
    LookupInRangeIff(s);
    if FixedFirst(s) {
      var c := PrefixSplits(s);
      assert forall n :: 0 <= n < c ==> s[..c][n] == s[n];
      assert forall n :: c <= n < |s| ==> s[c..][n - c] == s[n];
    }
  }

  lemma {:induction false} WantedComplete(s: seq<Slot>, n: nat, fixed: bool) returns (k: nat)
    requires n < |s| && s[n].device.request.Fixed() == fixed
    ensures k < |Wanted(s, fixed)| && Wanted(s, fixed)[k] == s[n]
  {
    WantedStep(s, n, fixed);
    k := |Wanted(s[..n], fixed)|;
  }

  lemma {:induction false} DistinctApart(v: seq<Slot>, i: nat, j: nat)
    requires DistinctDevices(v) && i < j < |v|
    ensures v[i].device != v[j].device
  {
  }

  /** Devices visited so far are not among those the next instance is about to number. */
  lemma {:induction false} NotYetWanted(v: seq<Slot>, s: seq<Slot>, fixed: bool)
    requires DistinctDevices(v + Wanted(s, fixed))
    ensures forall k, n :: 0 <= k < |v| && 0 <= n < |s| && s[n].device == v[k].device ==>
              s[n].device.request.Fixed() != fixed
  {
    forall k, n | 0 <= k < |v| && 0 <= n < |s| && s[n].device == v[k].device
      ensures s[n].device.request.Fixed() != fixed
    {
      if s[n].device.request.Fixed() == fixed {
        var q := WantedComplete(s, n, fixed);
        DistinctApart(v + Wanted(s, fixed), k, |v| + q);
      }
    }
  }

  // ---------------------------------------------------------------------------------------------------------
  // Blocks and instances
  // ---------------------------------------------------------------------------------------------------------

  function InstancesOf(bs: seq<Block>): seq<Instance> {
    if bs == [] then [] else InstancesOf(bs[..|bs| - 1]) + bs[|bs| - 1].instances
  }

  ghost function DevicesOf(insts: seq<Instance>): set<WbDevice> {
    set i, n | 0 <= i < |insts| && 0 <= n < |insts[i].wbDevices| :: insts[i].wbDevices[n]
  }

  /** Different objects that share no device. */
  ghost predicate Separate(p: Instance, q: Instance) {
    p != q && forall d :: d in p.wbDevices ==> d !in q.wbDevices
  }

  /** Every instance is listed once, and no device object is shared or repeated. */
  ghost predicate Unshared(insts: seq<Instance>) {
    && (forall i, j :: 0 <= i < j < |insts| ==> Separate(insts[i], insts[j]))
    && forall i :: 0 <= i < |insts| ==> DistinctDevices(SlotsOf(insts[i]))
  }

  lemma {:induction false} SlotOwner(insts: seq<Instance>, k: nat) returns (i: nat, n: nat)
    requires k < |Slots(insts)|
    ensures i < |insts| && n < |insts[i].wbDevices|
    ensures Slots(insts)[k] == SlotsOf(insts[i])[n]
  {
    var last := |insts| - 1;
    var before := Slots(insts[..last]);
    if k < |before| {
      i, n := SlotOwner(insts[..last], k);
    } else {
      i, n := last, k - |before|;
    }
  }

  lemma {:induction false} UnsharedIsDistinct(insts: seq<Instance>)
    requires Unshared(insts)
    ensures DistinctDevices(Slots(insts))
  {
    if insts != [] {
      var init, last := insts[..|insts| - 1], insts[|insts| - 1];
      UnsharedIsDistinct(init);
      var s, t := Slots(init), SlotsOf(last);
      forall k, m | 0 <= k < |s| && 0 <= m < |t| ensures s[k].device != t[m].device {
        var i, n := SlotOwner(init, k);
        assert Separate(insts[i], insts[|insts| - 1]);
        assert s[k].device == insts[i].wbDevices[n] && s[k].device in insts[i].wbDevices;
        assert t[m].device == last.wbDevices[m] && t[m].device in last.wbDevices;
      }
    }
  }

  lemma {:induction false} WantedDistinct(s: seq<Slot>, fixed: bool)
    requires DistinctDevices(s)
    ensures DistinctDevices(Wanted(s, fixed))
  {
    if s != [] {
      var n := |s| - 1;
      WantedDistinct(s[..n], fixed);
      WantedBefore(s, n, fixed);
    }
  }

  lemma {:induction false} SlotsStep(insts: seq<Instance>, i: nat, fixed: bool)
    requires i < |insts|
    ensures Slots(insts[..i + 1]) == Slots(insts[..i]) + SlotsOf(insts[i])
    ensures Wanted(Slots(insts[..i + 1]), fixed) ==
              Wanted(Slots(insts[..i]), fixed) + Wanted(SlotsOf(insts[i]), fixed)
    ensures Wanted(Slots(insts[..i + 1]), fixed) <= Wanted(Slots(insts), fixed)
  {
    assert insts[..i + 1][..i] == insts[..i];
    WantedSplits(Slots(insts[..i]), SlotsOf(insts[i]), fixed);
    WantedGrows(insts, i + 1, fixed);
  }

  lemma {:induction false} WantedGrows(insts: seq<Instance>, i: nat, fixed: bool)
    requires i <= |insts|
    ensures Wanted(Slots(insts[..i]), fixed) <= Wanted(Slots(insts), fixed)
  {
    if i == |insts| {
      assert insts[..i] == insts;
    } else {
      var n := |insts| - 1;
      WantedGrows(insts[..n], i, fixed);
      assert insts[..n][..i] == insts[..i];
      WantedSplits(Slots(insts[..n]), SlotsOf(insts[n]), fixed);
    }
  }

  lemma {:induction false} PrefixDistinct(v: seq<Slot>, w: seq<Slot>, x: seq<Slot>)
    requires w <= x
    ensures DistinctDevices(v + x) ==> DistinctDevices(v + w)
    ensures DistinctIds(v + x) ==> DistinctIds(v + w)
  {
    assert forall k :: 0 <= k < |v + w| ==> (v + w)[k] == (v + x)[k];
  }

  lemma {:induction false} Associate(u: seq<Slot>, v: seq<Slot>, w: seq<Slot>)
    ensures u + v + w == u + (v + w)
  {
  }

  lemma {:induction false} OthersApart(insts: seq<Instance>, i: nat)
    requires i < |insts| && Unshared(insts)
    ensures forall j :: 0 <= j < |insts| && j != i ==> insts[j] in insts && insts[j] != insts[i]
  {
    forall j | 0 <= j < |insts| && j != i ensures insts[j] != insts[i] {
      if j < i { assert Separate(insts[j], insts[i]); } else { assert Separate(insts[i], insts[j]); }
    }
  }

  /** What the next instance adds to the visit, and what it inherits from the whole. */
  lemma {:induction false} PassStep(v: seq<Slot>, insts: seq<Instance>, i: nat, fixed: bool)
    requires i < |insts| && Unshared(insts) && DistinctDevices(v + Wanted(Slots(insts), fixed))
    ensures var u := v + Wanted(Slots(insts[..i]), fixed) + Wanted(SlotsOf(insts[i]), fixed);
            && u == v + Wanted(Slots(insts[..i + 1]), fixed)
            && DistinctDevices(u) && DistinctDevices(SlotsOf(insts[i]))
            && (DistinctIds(v + Wanted(Slots(insts), fixed)) ==> DistinctIds(u))
    ensures forall j :: 0 <= j < |insts| && j != i ==> insts[j] != insts[i]
  {
    SlotsStep(insts, i, fixed);
    Associate(v, Wanted(Slots(insts[..i]), fixed), Wanted(SlotsOf(insts[i]), fixed));
    PrefixDistinct(v, Wanted(Slots(insts[..i + 1]), fixed), Wanted(Slots(insts), fixed));
    OthersApart(insts, i);
  }

  /** The first i instances have been passed. */
  ghost predicate Passed(insts: seq<Instance>, i: nat, fixed: bool)
    reads insts
  {
    && i <= |insts|
    && (forall j :: 0 <= j < i ==> After(insts[j], fixed))
    && (forall j :: i <= j < |insts| ==> Before(insts[j], fixed))
  }

  /** Without sub-arbiters every device stays on address word 0. */
  ghost predicate OneWord(ds: set<WbDevice>, max: Option<int>)
    reads ds
  {
    max.None? ==> forall d :: d in ds ==> d.subArbId == 0
  }

  lemma {:induction false} NumberedStep(v: seq<Slot>, x: Slot, params: map<WbId, int>)
    requires Numbered(v, params)
    ensures x.id in params <==> exists k :: 0 <= k < |v| && v[k].id == x.id
    ensures x.id in params ==> params[x.id] != |v|
    ensures x.id !in params ==> Numbered(v + [x], params[x.id := |v|])
  {
    if x.id !in params {
      var u := v + [x];
      forall id | id in params || id == x.id ensures exists k :: 0 <= k < |u| && u[k].id == id {
        if id == x.id {
          assert u[|v|].id == id;
        } else {
          var k :| 0 <= k < |v| && v[k].id == id;
          assert u[k].id == id;
        }
      }
    }
  }

  lemma {:induction false} PlaceStep(v: seq<Slot>, x: Slot, origin: int, a: int)
    requires a > 0
    ensures var cursor := Cursor(Requests(v), |v|, origin, a);
            && Place(Requests(v + [x]), origin, a) ==
                 Place(Requests(v), origin, a) + [PlaceOne(x.device.request, origin, cursor, a)]
            && Cursor(Requests(v + [x]), |v| + 1, origin, a) == Bump(x.device.request, origin, cursor, a)
  {
    assert Requests(v + [x]) == Requests(v) + [x.device.request];
    PlaceAppend(Requests(v), x.device.request, origin, a);
  }

  // ---------------------------------------------------------------------------------------------------------
  // Sorting blocks by name
  // ---------------------------------------------------------------------------------------------------------

  /** String comparison. */
  predicate LexLeq(s: string, t: string) {
    s == [] || (t != [] && (s[0] < t[0] || (s[0] == t[0] && LexLeq(s[1..], t[1..]))))
  }

  /** s and t agree on k characters, and then s ends or has the smaller character. */
  ghost predicate SmallerAt(s: string, t: string, k: nat) {
    k <= |s| && k <= |t| && s[..k] == t[..k] && (k == |s| || (k < |t| && s[k] < t[k]))
  }

  /** Character order, the shorter of two strings first if it starts the other. */
  lemma {:induction false} LexLeqIff(s: string, t: string)
    ensures LexLeq(s, t) <==> exists k: nat :: SmallerAt(s, t, k)
  {
    if s == [] {
      assert SmallerAt(s, t, 0);
    } else if t != [] && s[0] == t[0] {
      LexLeqIff(s[1..], t[1..]);
      if k: nat :| SmallerAt(s[1..], t[1..], k) {
        assert s[..k + 1] == [s[0]] + s[1..][..k] && t[..k + 1] == [t[0]] + t[1..][..k];
        assert SmallerAt(s, t, k + 1);
      }
      if k: nat :| SmallerAt(s, t, k) {
        assert k > 0;
        assert s[1..][..k - 1] == s[..k][1..] && t[1..][..k - 1] == t[..k][1..];
        assert SmallerAt(s[1..], t[1..], k - 1);
      }
    } else if t != [] && s[0] < t[0] {
      assert SmallerAt(s, t, 0);
    } else {
      forall k: nat | 0 < k <= |s| && k <= |t| ensures s[..k] != t[..k] {
        assert s[..k][0] == s[0] && t[..k][0] == t[0];
      }
    }
  }

  function InsertBlock(bs: seq<Block>, b: Block): seq<Block> {
    if bs == [] || LexLeq(bs[|bs| - 1].name, b.name) then bs + [b]
    else InsertBlock(bs[..|bs| - 1], b) + [bs[|bs| - 1]]
  }

  /** sorted(self.instances.keys()) */
  function SortBlocks(bs: seq<Block>): seq<Block> {
    if bs == [] then [] else InsertBlock(SortBlocks(bs[..|bs| - 1]), bs[|bs| - 1])
  }

  /** Blocks that share no instance and no device. */
  ghost predicate Apart(b: Block, c: Block) {
    forall p, q :: p in b.instances && q in c.instances ==> Separate(p, q)
  }

  /** The instance dictionary: every instance lives in one block and owns its devices. */
  ghost predicate WellFormed(bs: seq<Block>) {
    && (forall i, j :: 0 <= i < |bs| && 0 <= j < |bs| && i != j ==> Apart(bs[i], bs[j]))
    && (forall i :: 0 <= i < |bs| ==> Unshared(bs[i].instances))
  }

  lemma {:induction false} InsertBlockPermutes(bs: seq<Block>, b: Block)
    ensures multiset(InsertBlock(bs, b)) == multiset(bs) + multiset{b}
  {
    if bs != [] && !LexLeq(bs[|bs| - 1].name, b.name) {
      InsertBlockPermutes(bs[..|bs| - 1], b);
      assert bs == bs[..|bs| - 1] + [bs[|bs| - 1]];
    }
  }

  lemma {:induction false} SortBlocksPermutes(bs: seq<Block>)
    ensures multiset(SortBlocks(bs)) == multiset(bs)
  {
    if bs != [] {
      var init, last := bs[..|bs| - 1], bs[|bs| - 1];
      SortBlocksPermutes(init);
      InsertBlockPermutes(SortBlocks(init), last);
      assert bs == init + [last];
    }
  }

  lemma {:induction false} LexTotal(s: string, t: string)
    ensures LexLeq(s, t) || LexLeq(t, s)
  {
    if s != [] && t != [] && s[0] == t[0] {
      LexTotal(s[1..], t[1..]);
    }
  }

  /** The sorted blocks rise in name order. */
  lemma {:induction false} SortBlocksSorts(bs: seq<Block>, i: nat)
    requires i + 1 < |SortBlocks(bs)|
    ensures LexLeq(SortBlocks(bs)[i].name, SortBlocks(bs)[i + 1].name)
  {
    var init, last := bs[..|bs| - 1], bs[|bs| - 1];
    forall k | 0 <= k && k + 1 < |SortBlocks(init)|
      ensures LexLeq(SortBlocks(init)[k].name, SortBlocks(init)[k + 1].name)
    {
      SortBlocksSorts(init, k);
    }
    InsertBlockSorts(SortBlocks(init), last);
  }

  ghost predicate NameSorted(bs: seq<Block>) {
    forall k :: 0 <= k && k + 1 < |bs| ==> LexLeq(bs[k].name, bs[k + 1].name)
  }

  lemma {:induction false} InsertBlockSorts(bs: seq<Block>, b: Block)
    requires NameSorted(bs)
    ensures NameSorted(InsertBlock(bs, b))
    ensures var r := InsertBlock(bs, b);
            |r| == |bs| + 1 && (r[|r| - 1] == b || (bs != [] && r[|r| - 1] == bs[|bs| - 1]))
  {
    if bs != [] && !LexLeq(bs[|bs| - 1].name, b.name) {
      LexTotal(bs[|bs| - 1].name, b.name);
      InsertBlockSorts(bs[..|bs| - 1], b);
    }
  }

  lemma {:induction false} InsertKeepsApart(bs: seq<Block>, b: Block)
    requires WellFormed(bs) && Unshared(b.instances)
    requires forall c :: c in bs ==> Apart(c, b) && Apart(b, c)
    ensures WellFormed(InsertBlock(bs, b))
  {
    if bs != [] && !LexLeq(bs[|bs| - 1].name, b.name) {
      var init, last := bs[..|bs| - 1], bs[|bs| - 1];
      InsertKeepsApart(init, b);
      InsertBlockPermutes(init, b);
      var r := InsertBlock(init, b);
      forall k | 0 <= k < |r| ensures Apart(r[k], last) && Apart(last, r[k]) {
        assert r[k] in multiset(init) + multiset{b};
        ApartFromLast(bs, b, r[k]);
      }
      AppendWellFormed(r, last);
    }
  }

  lemma {:induction false} AppendWellFormed(bs: seq<Block>, b: Block)
    requires WellFormed(bs) && Unshared(b.instances)
    requires forall k :: 0 <= k < |bs| ==> Apart(bs[k], b) && Apart(b, bs[k])
    ensures WellFormed(bs + [b])
  {
  }

  lemma {:induction false} ApartFromLast(bs: seq<Block>, b: Block, c: Block)
    requires bs != [] && WellFormed(bs) && (c in bs[..|bs| - 1] || c == b)
    requires Apart(bs[|bs| - 1], b) && Apart(b, bs[|bs| - 1])
    ensures Apart(c, bs[|bs| - 1]) && Apart(bs[|bs| - 1], c)
  {
    if c != b {
      var q :| 0 <= q < |bs| - 1 && bs[q] == c;
      assert Apart(bs[q], bs[|bs| - 1]) && Apart(bs[|bs| - 1], bs[q]);
    }
  }

  lemma {:induction false} SortKeepsWellFormed(bs: seq<Block>)
    requires WellFormed(bs)
    ensures WellFormed(SortBlocks(bs))
  {
    if bs != [] {
      var init, last := bs[..|bs| - 1], bs[|bs| - 1];
      SortKeepsWellFormed(init);
      SortBlocksPermutes(init);
      forall c | c in SortBlocks(init) ensures Apart(c, last) && Apart(last, c) {
        assert c in multiset(init);
        var q :| 0 <= q < |init| && init[q] == c;
        assert Apart(bs[q], bs[|bs| - 1]) && Apart(bs[|bs| - 1], bs[q]);
      }
      InsertKeepsApart(SortBlocks(init), last);
    }
  }

  lemma {:induction false} InstanceMember(bs: seq<Block>, p: Instance)
    ensures p in InstancesOf(bs) <==> exists i :: 0 <= i < |bs| && p in bs[i].instances
  {
    if bs != [] {
      InstanceMember(bs[..|bs| - 1], p);
    }
  }

  lemma {:induction false} WellFormedUnshared(bs: seq<Block>)
    requires WellFormed(bs)
    ensures Unshared(InstancesOf(bs))
  {
    if bs != [] {
      var init, last := bs[..|bs| - 1], bs[|bs| - 1];
      WellFormedUnshared(init);
      var s, t := InstancesOf(init), last.instances;
      forall i, j | 0 <= i < |s| && 0 <= j < |t| ensures Separate(s[i], t[j]) {
        InstanceMember(init, s[i]);
        var q :| 0 <= q < |init| && s[i] in init[q].instances;
        assert Apart(bs[q], bs[|bs| - 1]);
        assert t[j] in bs[|bs| - 1].instances;
      }
    }
  }

  /** Sorting the blocks does not lose or invent instances. */
  lemma {:induction false} SortedSameInstances(bs: seq<Block>, p: Instance)
    ensures p in InstancesOf(SortBlocks(bs)) <==> p in InstancesOf(bs)
  {
    InstanceMember(bs, p);
    InstanceMember(SortBlocks(bs), p);
    SortBlocksPermutes(bs);
    if p in InstancesOf(bs) {
      var i :| 0 <= i < |bs| && p in bs[i].instances;
      assert bs[i] in multiset(SortBlocks(bs));
    }
    if p in InstancesOf(SortBlocks(bs)) {
      var i :| 0 <= i < |SortBlocks(bs)| && p in SortBlocks(bs)[i].instances;
      assert SortBlocks(bs)[i] in multiset(bs);
    }
  }

  /** Every instance of one order is found in the other, so nothing said of all instances depends on the order. */
  lemma {:induction false} SameInstances(bs: seq<Block>)
    ensures var first, second := InstancesOf(SortBlocks(bs)), InstancesOf(bs);
            && (forall i :: 0 <= i < |first| ==> first[i] in second)
            && (forall i :: 0 <= i < |second| ==> second[i] in first)
            && DevicesOf(first) == DevicesOf(second)
  {
    var first, second := InstancesOf(SortBlocks(bs)), InstancesOf(bs);
    forall i | 0 <= i < |first| ensures first[i] in second {
      SortedSameInstances(bs, first[i]);
    }
    forall i | 0 <= i < |second| ensures second[i] in first {
      SortedSameInstances(bs, second[i]);
    }
    DevicesWithin(first, second);
    DevicesWithin(second, first);
  }

  lemma {:induction false} DevicesWithin(first: seq<Instance>, second: seq<Instance>)
    requires forall i :: 0 <= i < |first| ==> first[i] in second
    ensures DevicesOf(first) <= DevicesOf(second)
  {
    forall d | d in DevicesOf(first) ensures d in DevicesOf(second) {
      var i, n :| 0 <= i < |first| && 0 <= n < |first[i].wbDevices| && first[i].wbDevices[n] == d;
      var j :| 0 <= j < |second| && second[j] == first[i];
      assert second[j].wbDevices[n] == d;
    }
  }

  lemma {:induction false} CarryOrder(bs: seq<Block>)
    ensures Orderly(InstancesOf(SortBlocks(bs))) <==> Orderly(InstancesOf(bs))
  {
    var first, second := InstancesOf(SortBlocks(bs)), InstancesOf(bs);
    SameInstances(bs);
    if Orderly(second) {
      forall j | 0 <= j < |first| ensures InOrder(first[j]) {
        var i :| 0 <= i < |second| && second[i] == first[j];
      }
    }
    if Orderly(first) {
      forall i | 0 <= i < |second| ensures InOrder(second[i]) {
        var j :| 0 <= j < |first| && first[j] == second[i];
      }
    }
  }

  lemma {:induction false} CarryFresh(bs: seq<Block>)
    requires forall i :: 0 <= i < |InstancesOf(bs)| ==> Before(InstancesOf(bs)[i], true)
    ensures forall j :: 0 <= j < |InstancesOf(SortBlocks(bs))| ==> Before(InstancesOf(SortBlocks(bs))[j], true)
  {
    var first, second := InstancesOf(SortBlocks(bs)), InstancesOf(bs);
    SameInstances(bs);
    forall j | 0 <= j < |first| ensures Before(first[j], true) {
      assert first[j] in second;
      var i :| 0 <= i < |second| && second[i] == first[j];
    }
  }

  lemma {:induction false} CarryIds(bs: seq<Block>)
    requires forall j :: 0 <= j < |InstancesOf(SortBlocks(bs))| ==> After(InstancesOf(SortBlocks(bs))[j], true)
    ensures forall i :: 0 <= i < |InstancesOf(bs)| ==> Before(InstancesOf(bs)[i], false)
  {
    var first, second := InstancesOf(SortBlocks(bs)), InstancesOf(bs);
    forall i | 0 <= i < |second| ensures Before(second[i], false) {
      SortedSameInstances(bs, second[i]);
      var j :| 0 <= j < |first| && first[j] == second[i];
    }
  }

  /** The visit order of both passes: requested devices over blocks in name order, then the others over blocks in
      insertion order. */
  function Visit(bs: seq<Block>): seq<Slot> {
    FirstVisit(bs) + SecondVisit(bs)
  }

  function SecondVisit(bs: seq<Block>): seq<Slot> {
    Wanted(Slots(InstancesOf(bs)), false)
  }

  function FirstVisit(bs: seq<Block>): seq<Slot> {
    Wanted(Slots(InstancesOf(SortBlocks(bs))), true)
  }

  lemma {:induction false} PrefixKeeps(v: seq<Slot>, w: seq<Slot>)
    ensures [] + v == v
    ensures DistinctDevices(v + w) ==> DistinctDevices(v)
    ensures DistinctIds(v + w) ==> DistinctIds(v)
  {
    assert forall k :: 0 <= k < |v| ==> (v + w)[k] == v[k];
  }

  lemma {:induction false} NumberedDistinct(v: seq<Slot>, params: map<WbId, int>)
    requires Numbered(v, params)
    ensures DistinctIds(v)
  {
  }

  lemma {:induction false} RequestsConcat(v: seq<Slot>, w: seq<Slot>)
    ensures Requests(v + w) == Requests(v) + Requests(w)
  {
  }

  lemma {:induction false} WantedRequests(s: seq<Slot>, fixed: bool)
    ensures forall k :: 0 <= k < |Wanted(s, fixed)| ==> Requests(Wanted(s, fixed))[k].Fixed() == fixed
  {
    WantedMembers(s, fixed);
  }

  /** Each pass's part of the visit, as requests. */
  lemma {:induction false} VisitRequests(bs: seq<Block>)
    ensures var rs := Requests(FirstVisit(bs));
            var us := Requests(SecondVisit(bs));
            Requests(Visit(bs)) == rs + us && AllFixed(rs) && NoneFixed(us)
  {
    RequestsConcat(FirstVisit(bs), SecondVisit(bs));
    WantedRequests(Slots(InstancesOf(SortBlocks(bs))), true);
    WantedRequests(Slots(InstancesOf(bs)), false);
  }

  lemma {:induction false} VisitDistinct(bs: seq<Block>)
    requires WellFormed(bs)
    ensures DistinctDevices(Visit(bs))
    ensures Unshared(InstancesOf(bs)) && Unshared(InstancesOf(SortBlocks(bs)))
  {
    SortKeepsWellFormed(bs);
    WellFormedUnshared(bs);
    WellFormedUnshared(SortBlocks(bs));
    var first, second := Slots(InstancesOf(SortBlocks(bs))), Slots(InstancesOf(bs));
    UnsharedIsDistinct(InstancesOf(SortBlocks(bs)));
    UnsharedIsDistinct(InstancesOf(bs));
    WantedDistinct(first, true);
    WantedDistinct(second, false);
    WantedMembers(first, true);
    WantedMembers(second, false);
  }

  /** What the first pass may rely on. */
  lemma {:induction false} FirstPassReady(bs: seq<Block>)
    requires WellFormed(bs)
    ensures [] + FirstVisit(bs) == FirstVisit(bs) && DistinctDevices(FirstVisit(bs))
    ensures DistinctIds(Visit(bs)) ==> DistinctIds(FirstVisit(bs))
    ensures Unshared(InstancesOf(SortBlocks(bs)))
    ensures forall i :: 0 <= i < |InstancesOf(SortBlocks(bs))| ==> InstancesOf(SortBlocks(bs))[i] in InstancesOf(bs)
    ensures DevicesOf(InstancesOf(SortBlocks(bs))) == DevicesOf(InstancesOf(bs))
  {
    VisitDistinct(bs);
    SameInstances(bs);
    PrefixKeeps(FirstVisit(bs), SecondVisit(bs));
  }

  /** Visited devices belong to the instances. */
  lemma {:induction false} VisitedDevices(bs: seq<Block>)
    ensures forall k :: 0 <= k < |Visit(bs)| ==> Visit(bs)[k].device in DevicesOf(InstancesOf(bs))
  {
    SameInstances(bs);
    WantedOwned(InstancesOf(SortBlocks(bs)), true);
    WantedOwned(InstancesOf(bs), false);
  }

  lemma {:induction false} WantedOwned(insts: seq<Instance>, fixed: bool)
    ensures forall k :: 0 <= k < |Wanted(Slots(insts), fixed)| ==> Wanted(Slots(insts), fixed)[k].device in DevicesOf(insts)
  {
    var s := Slots(insts);
    WantedMembers(s, fixed);
    forall k | 0 <= k < |Wanted(s, fixed)| ensures Wanted(s, fixed)[k].device in DevicesOf(insts) {
      var q :| 0 <= q < |s| && s[q] == Wanted(s, fixed)[k];
      var i, n := SlotOwner(insts, q);
      assert insts[i].wbDevices[n] == s[q].device;
    }
  }

  lemma {:induction false} VisitSized(bs: seq<Block>)
    requires Sized(Requests(Visit(bs)))
    ensures Sized(Requests(FirstVisit(bs))) && Sized(Requests(SecondVisit(bs)))
  {
    VisitRequests(bs);
    var rs, us, all := Requests(FirstVisit(bs)), Requests(SecondVisit(bs)), Requests(Visit(bs));
    assert forall i :: 0 <= i < |rs| ==> rs[i] == all[i];
    assert forall i :: 0 <= i < |us| ==> us[i] == all[|rs| + i];
  }
}

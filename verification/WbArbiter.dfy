/** The Wishbone decode tables. Devices sorted by address are cut into chunks of `max` devices; a primary arbiter
    chooses the chunk, a sub-arbiter the device inside it. This module models the emitted tables and the decode the
    `wbs_arbiter` hardware performs on them. */
module WbArbiter {
  import opened Arith
  import opened WbPlacement

  const WORD := 0x1_0000_0000

  /** Table entries and addresses are 32-bit words. */
  function Word(x: int): (w: int)
    ensures 0 <= w < WORD
    ensures 0 <= x < WORD ==> w == x
  {
    x % WORD
  }

  // ---------------------------------------------------------------------------------------------------------
  // Verilog concatenations
  // ---------------------------------------------------------------------------------------------------------

  function Reversed<T>(s: seq<T>): seq<T> {
    seq(|s|, i requires 0 <= i < |s| => s[|s| - 1 - i])
  }

  /** A concatenation of 32-bit entries is written most significant first; slice `i` counts from the other end. */
  function Slice(entries: seq<int>, i: nat): int
    requires i < |entries|
  {
    entries[|entries| - 1 - i]
  }

  /** A concatenation of vectors, first operand most significant; the result is indexed by bit number. */
  function ConcatVectors(parts: seq<seq<bool>>): seq<bool> {
    if parts == [] then [] else ConcatVectors(parts[1..]) + parts[0]
  }

  // ---------------------------------------------------------------------------------------------------------
  // wbs_arbiter.v
  // ---------------------------------------------------------------------------------------------------------

  /** SLAVE_ADDR and SLAVE_HIGH as written in the Verilog text, most significant entry first. */
  datatype Table = Table(addr: seq<int>, high: seq<int>)

  /** wbs_sel: which slaves' ranges contain the address. */
  function Select(t: Table, n: nat, a: int): (sel: seq<bool>)
    ensures |sel| == n
  {
    seq(n, i requires 0 <= i < n =>
      i < |t.addr| && i < |t.high| && Slice(t.addr, i) <= a <= Slice(t.high, i))
  }

  /** The priority encoder: the highest line that is set, 0 when none is. */
  function Encode(sel: seq<bool>): nat {
    if sel == [] then 0
    else if sel[|sel| - 1] then |sel| - 1
    else Encode(sel[..|sel| - 1])
  }

  /** wbs_adr_o: the address relative to the encoded slave's base. */
  function Relative(t: Table, sel: seq<bool>, a: int): int {
    var e := Encode(sel);
    Word(a - (if e < |t.addr| then Slice(t.addr, e) else 0))
  }

  // ---------------------------------------------------------------------------------------------------------
  // Emitted tables
  // ---------------------------------------------------------------------------------------------------------

  /** One arbiter over all devices. */
  function FlatTable(ws: seq<Window>): Table {
    Table(Reversed(seq(|ws|, i requires 0 <= i < |ws| => Word(ws[i].base))),
          Reversed(seq(|ws|, i requires 0 <= i < |ws| => Word(ws[i].high))))
  }

  function Min(x: int, y: int): int { if x <= y then x else y }

  /** ws[i * max : i * max + max], cut off at the end of the list as Python slices are. */
  function Chunk(ws: seq<Window>, max: int, i: int): (c: seq<Window>)
    requires max > 0 && 0 <= i < CeilDiv(|ws|, max)
    ensures 0 < |c| <= max
  {
    ChunkStart(|ws|, max, i);
    ws[i * max..Min(i * max + max, |ws|)]
  }

  /** The slices taken at 0, max, 2 * max, ... */
  function Chunks(ws: seq<Window>, max: int): (cs: seq<seq<Window>>)
    requires max > 0
    ensures |cs| == CeilDiv(|ws|, max)
    ensures forall i :: 0 <= i < |cs| ==> cs[i] == Chunk(ws, max, i) && cs[i] != []
  {
    ChunkCount(|ws|, max);
    seq(CeilDiv(|ws|, max), i requires 0 <= i < CeilDiv(|ws|, max) => Chunk(ws, max, i))
  }

  lemma {:induction false} ChunkElement(ws: seq<Window>, max: int, i: nat, j: nat)
    requires max > 0 && i < CeilDiv(|ws|, max) && j < |Chunk(ws, max, i)|
    ensures 0 <= i * max + j < |ws|
    ensures Chunk(ws, max, i)[j] == ws[i * max + j]
  {
    ChunkStart(|ws|, max, i);
  }

  lemma {:induction false} ChunkSize(ws: seq<Window>, max: int, i: nat)
    requires max > 0 && i < CeilDiv(|ws|, max)
    ensures 0 <= i * max < |ws|
    ensures |Chunk(ws, max, i)| == Min(max, |ws| - i * max)
    ensures i < CeilDiv(|ws|, max) - 1 ==> |Chunk(ws, max, i)| == max
    ensures i == CeilDiv(|ws|, max) - 1 ==> i * max + |Chunk(ws, max, i)| == |ws|
  {
    ChunkStart(|ws|, max, i);
  }

  lemma {:induction false} ChunkCount(n: nat, max: int)
    requires max > 0
    ensures CeilDiv(n, max) >= 0
    ensures n > 0 ==> (CeilDiv(n, max) - 1) * max < n <= CeilDiv(n, max) * max
    ensures n == 0 ==> CeilDiv(n, max) == 0
  {
    var q := CeilDiv(n, max);
    DivModSplit(n + max - 1, max);
    if q < 0 { MulMonotone(max, q, -1); }
    if n == 0 { ModUnique(max - 1, max, 0, max - 1); }
  }

  lemma {:induction false} ChunkStart(n: nat, max: int, i: int)
    requires max > 0 && 0 <= i < CeilDiv(n, max)
    ensures 0 <= i * max < n
    ensures i < CeilDiv(n, max) - 1 ==> i * max + max < n
    ensures i == CeilDiv(n, max) - 1 ==> n <= i * max + max
  {
    ChunkCount(n, max);
    MulMonotone(max, i, CeilDiv(n, max) - 1);
    if i < CeilDiv(n, max) - 1 { MulMonotone(max, i + 1, CeilDiv(n, max) - 1); }
  }

  /** The lowest base in a chunk, never above 0xFFFFFFFF. */
  function LowestBase(c: seq<Window>): int {
    if c == [] then 0xFFFF_FFFF else Min(c[|c| - 1].base, LowestBase(c[..|c| - 1]))
  }

  /** A chunk's table, relative to its lowest base; each entry is a 32-bit subtraction. */
  function SubTable(c: seq<Window>): Table {
    var low := Word(LowestBase(c));
    Table(Reversed(seq(|c|, i requires 0 <= i < |c| => Word(Word(c[i].base) - low))),
          Reversed(seq(|c|, i requires 0 <= i < |c| => Word(Word(c[i].high) - low))))
  }

  /** The primary table: first base and last high of every chunk. */
  function PrimaryTable(cs: seq<seq<Window>>): Table
    requires forall i :: 0 <= i < |cs| ==> cs[i] != []
  {
    Table(Reversed(seq(|cs|, i requires 0 <= i < |cs| => Word(cs[i][0].base))),
          Reversed(seq(|cs|, i requires 0 <= i < |cs| => Word(cs[i][|cs[i]| - 1].high))))
  }

  /** N_SLAVES_ARBi as the generator writes it, from the total device count alone. */
  function SlaveCount(i: nat, arbiters: nat, devices: nat, max: int): int
    requires max > 0
  {
    if i != arbiters - 1 then max
    else if devices % max == 0 then max
    else devices % max
  }

  datatype MasterArbiter = MasterArbiter(primary: Table, subs: seq<Table>, slaves: seq<int>) {
    ghost predicate Shaped() {
      |subs| == |slaves| && forall i :: 0 <= i < |slaves| ==> slaves[i] >= 0
    }

    function PrimarySelect(a: int): seq<bool> {
      Select(primary, |subs|, a)
    }

    /** The address bus from the primary arbiter to all sub-arbiters. */
    function Forwarded(a: int): int {
      Relative(primary, PrimarySelect(a), a)
    }

    /** wbs_cyc_o_arb<i>: silent unless the primary arbiter strobes this sub-arbiter. */
    function SubStrobes(i: nat, a: int): seq<bool>
      requires Shaped() && i < |subs|
    {
      if PrimarySelect(a)[i] then Select(subs[i], slaves[i], Forwarded(a))
      else seq(slaves[i], _ => false)
    }

    /** The sub-arbiters' vectors, low to high. */
    function Vectors(a: int): seq<seq<bool>>
      requires Shaped()
    {
      seq(|subs|, i requires 0 <= i < |subs| => SubStrobes(i, a))
    }

    /** The wbs_cyc_o bus: the concatenation lists the highest sub-arbiter first. */
    function Strobes(a: int): seq<bool>
      requires Shaped()
    {
      ConcatVectors(Reversed(Vectors(a)))
    }

    /** Word `i` of the wbs_adr_o bus. */
    function AddressSlice(i: nat, a: int): int
      requires Shaped() && i < |subs|
    {
      Relative(subs[i], Select(subs[i], slaves[i], Forwarded(a)), Forwarded(a))
    }
  }

  function Hierarchy(ws: seq<Window>, max: int): (m: MasterArbiter)
    requires max > 0
    ensures m.Shaped()
  {
    var cs := Chunks(ws, max);
    MasterArbiter(PrimaryTable(cs),
                  seq(|cs|, i requires 0 <= i < |cs| => SubTable(cs[i])),
                  seq(|cs|, i requires 0 <= i < |cs| => SlaveCount(i, |cs|, |ws|, max)))
  }

  /** The strobes of the non-hierarchical arbiter. */
  function FlatStrobes(ws: seq<Window>, a: int): seq<bool> {
    Select(FlatTable(ws), |ws|, a)
  }

  function FlatAddress(ws: seq<Window>, a: int): int {
    Relative(FlatTable(ws), FlatStrobes(ws, a), a)
  }

  // ---------------------------------------------------------------------------------------------------------
  // The generator
  // ---------------------------------------------------------------------------------------------------------

  /** Total number of devices on a list of arbiters. */
  function DeviceCount(arbiters: seq<seq<Window>>): nat {
    if arbiters == [] then 0
    else DeviceCount(arbiters[..|arbiters| - 1]) + |arbiters[|arbiters| - 1]|
  }

  /** gen_wbs_master_arbiter together with the primary tables of wb_compute, run on the chunks of a sorted device
      list, emits exactly the hierarchy specified above. */
  method GenMasterArbiter(ws: seq<Window>, max: int) returns (m: MasterArbiter)
    requires max > 0
    ensures m == Hierarchy(ws, max)
  {
    var arbiters := Chunks(ws, max);
    ChunksCoverDevices(ws, max);
    var nDevices := CountDevices(arbiters);
    var slaves := SlaveCounts(|arbiters|, nDevices, max);
    var subs := SubTables(arbiters);
    var addr, high := PrimaryEntries(arbiters);
    assert slaves == Hierarchy(ws, max).slaves;
    assert subs == Hierarchy(ws, max).subs;
    m := MasterArbiter(Table(addr, high), subs, slaves);
  }

  method CountDevices(arbiters: seq<seq<Window>>) returns (n: nat)
    ensures n == DeviceCount(arbiters)
  {
    n := 0;
    for i := 0 to |arbiters|
      invariant n == DeviceCount(arbiters[..i])
    {
      n := n + |arbiters[i]|;
      assert arbiters[..i + 1][..i] == arbiters[..i];
    }
    assert arbiters[..|arbiters|] == arbiters;
  }

  /** The N_SLAVES_ARB localparams. */
  method SlaveCounts(nArbiters: nat, nDevices: nat, max: int) returns (slaves: seq<int>)
    requires max > 0
    ensures |slaves| == nArbiters
    ensures forall k :: 0 <= k < nArbiters ==> slaves[k] == SlaveCount(k, nArbiters, nDevices, max)
  {
    slaves := [];
    for i := 0 to nArbiters
      invariant |slaves| == i
      invariant forall k :: 0 <= k < i ==> slaves[k] == SlaveCount(k, nArbiters, nDevices, max)
    {
      slaves := slaves + [if i != nArbiters - 1 then max
                          else if nDevices % max == 0 then max
                          else nDevices % max];
    }
  }

  /** The tables of all sub-arbiters. */
  method SubTables(arbiters: seq<seq<Window>>) returns (subs: seq<Table>)
    ensures |subs| == |arbiters|
    ensures forall k :: 0 <= k < |arbiters| ==> subs[k] == SubTable(arbiters[k])
  {
    var lows := LowestBases(arbiters);
    subs := [];
    for i := 0 to |arbiters|
      invariant |subs| == i
      invariant forall k :: 0 <= k < i ==> subs[k] == SubTable(arbiters[k])
    {
      var addr, high := RelativeEntries(arbiters[i], lows[i]);
      subs := subs + [Table(addr, high)];
    }
  }

  /** arbiter_base_addresses: the lowest base on each arbiter, whatever the order of its devices. */
  method LowestBases(arbiters: seq<seq<Window>>) returns (lows: seq<int>)
    ensures |lows| == |arbiters|
    ensures forall k :: 0 <= k < |arbiters| ==> lows[k] == LowestBase(arbiters[k])
  {
    lows := [];
    for i := 0 to |arbiters|
      invariant |lows| == i
      invariant forall k :: 0 <= k < i ==> lows[k] == LowestBase(arbiters[k])
    {
      var low := 0xFFFF_FFFF;
      var arbiter := arbiters[i];
      for j := 0 to |arbiter|
        invariant low == LowestBase(arbiter[..j])
      {
        if arbiter[j].base < low {
          low := arbiter[j].base;
        }
        assert arbiter[..j + 1][..j] == arbiter[..j];
      }
      assert arbiter[..|arbiter|] == arbiter;
      lows := lows + [low];
    }
  }

  /** SLAVE_ADDR and SLAVE_HIGH of the primary arbiter, written from the last chunk down. */
  method PrimaryEntries(arbiters: seq<seq<Window>>) returns (addr: seq<int>, high: seq<int>)
    requires forall i :: 0 <= i < |arbiters| ==> arbiters[i] != []
    ensures Table(addr, high) == PrimaryTable(arbiters)
  {
    addr, high := [], [];
    for i := 0 to |arbiters|
      invariant |addr| == |high| == i
      invariant forall k :: 0 <= k < i ==>
                  addr[k] == PrimaryTable(arbiters).addr[k] && high[k] == PrimaryTable(arbiters).high[k]
    {
      var arbiter := arbiters[|arbiters| - 1 - i];
      addr := addr + [Word(arbiter[0].base)];
      high := high + [Word(arbiter[|arbiter| - 1].high)];
    }
    assert addr == PrimaryTable(arbiters).addr && high == PrimaryTable(arbiters).high;
  }

  /** The SLAVE_ADDR_ARB and SLAVE_HIGH_ARB entries of one sub-arbiter, walked from the last device down. */
  method RelativeEntries(c: seq<Window>, low: int) returns (addr: seq<int>, high: seq<int>)
    requires low == LowestBase(c)
    ensures Table(addr, high) == SubTable(c)
  {
    addr, high := [], [];
    for j := 0 to |c|
      invariant |addr| == |high| == j
      invariant forall k :: 0 <= k < j ==> addr[k] == SubTable(c).addr[k] && high[k] == SubTable(c).high[k]
    {
      var device := c[|c| - 1 - j];
      addr := addr + [Word(Word(device.base) - Word(low))];
      high := high + [Word(Word(device.high) - Word(low))];
    }
    assert addr == SubTable(c).addr && high == SubTable(c).high;
  }

  // ---------------------------------------------------------------------------------------------------------
  // Counts and bit positions
  // ---------------------------------------------------------------------------------------------------------

  /** N_SLAVES_ARBi is the real size of chunk i, although the generator only looks at the total. */
  lemma {:induction false} SlaveCountIsChunkSize(ws: seq<Window>, max: int, i: nat)
    requires max > 0 && i < |Chunks(ws, max)|
    ensures SlaveCount(i, |Chunks(ws, max)|, |ws|, max) == |Chunks(ws, max)[i]|
  {
    var n, q := |ws|, CeilDiv(|ws|, max);
    ChunkSize(ws, max, i);
    if i == q - 1 {
      var r := n - i * max;
      if r == max {
        ModUnique(n, max, q, 0);
      } else {
        ModUnique(n, max, i, r);
      }
    }
  }

  /** The chunks hold every device exactly once: their sizes add up to the device count. */
  lemma {:induction false} ChunksCoverDevices(ws: seq<Window>, max: int)
    requires max > 0
    ensures DeviceCount(Chunks(ws, max)) == |ws|
  {
    var cs := Chunks(ws, max);
    if ws == [] {
      ChunkCount(0, max);
    } else {
      ChunkCount(|ws|, max);
      ChunkPrefixCount(ws, max, |cs| - 1);
      ChunkSize(ws, max, |cs| - 1);
    }
  }

  lemma {:induction false} NextStart(max: int, k: nat)
    ensures (k + 1) * max == k * max + max
  {
  }

  lemma {:induction false} ChunkPrefixCount(ws: seq<Window>, max: int, k: nat)
    requires max > 0 && k < |Chunks(ws, max)|
    ensures DeviceCount(Chunks(ws, max)[..k]) == k * max
  {
    var cs := Chunks(ws, max);
    if k > 0 {
      ChunkPrefixCount(ws, max, k - 1);
      assert cs[..k][..k - 1] == cs[..k - 1];
      ChunkSize(ws, max, k - 1);
      NextStart(max, k - 1);
    }
  }

  /** Concatenating equal-width vectors (only the last may be short) puts element j of vector i at bit i*w + j. */
  lemma {:induction false} ConcatBit(vs: seq<seq<bool>>, w: nat, i: nat, j: nat)
    requires i < |vs| && j < |vs[i]|
    requires forall k :: 0 <= k < |vs| - 1 ==> |vs[k]| == w
    requires |vs[|vs| - 1]| <= w
    ensures |ConcatVectors(Reversed(vs))| == (|vs| - 1) * w + |vs[|vs| - 1]|
    ensures 0 <= i * w + j < |ConcatVectors(Reversed(vs))|
    ensures ConcatVectors(Reversed(vs))[i * w + j] == vs[i][j]
    decreases |vs|
  {
    var n := |vs| - 1;
    var init := vs[..n];
    ConcatLast(vs);
    ConcatWidth(init, w);
    NextStart(w, i);
    if i < n {
      MulMonotone(w, i + 1, n);
      if n > 0 {
        ConcatBit(init, w, i, j);
      }
    }
  }

  /** All vectors but the last have the same width, which the last does not exceed. */
  ghost predicate EvenlyWide(vs: seq<seq<bool>>, w: nat) {
    forall k :: 0 <= k < |vs| ==> |vs[k]| <= w && (k < |vs| - 1 ==> |vs[k]| == w)
  }

  lemma {:induction false} ConcatAt(vs: seq<seq<bool>>, w: nat, i: nat, j: nat, g: nat)
    requires EvenlyWide(vs, w) && i < |vs| && j < |vs[i]| && g == i * w + j
    ensures g < |ConcatVectors(Reversed(vs))| && ConcatVectors(Reversed(vs))[g] == vs[i][j]
  {
    ConcatBit(vs, w, i, j);
  }

  /** The last vector is the most significant part. */
  lemma {:induction false} ConcatLast(vs: seq<seq<bool>>)
    requires vs != []
    ensures ConcatVectors(Reversed(vs)) == ConcatVectors(Reversed(vs[..|vs| - 1])) + vs[|vs| - 1]
  {
    assert Reversed(vs)[1..] == Reversed(vs[..|vs| - 1]);
    assert Reversed(vs)[0] == vs[|vs| - 1];
  }

  lemma {:induction false} ConcatWidth(vs: seq<seq<bool>>, w: nat)
    requires forall k :: 0 <= k < |vs| ==> |vs[k]| == w
    ensures |ConcatVectors(Reversed(vs))| == |vs| * w
  {
    if vs == [] {
      assert Reversed(vs) == [];
    } else {
      var n := |vs| - 1;
      ConcatLast(vs);
      ConcatWidth(vs[..n], w);
      NextStart(w, n);
    }
  }
}

/** The two-level hierarchy decodes every address like one flat table over all devices. */
module WbDecode {
  import opened Arith
  import opened WbPlacement
  import opened WbArbiter

  /** What sorting makes of any non-empty windows in the 32-bit space. */
  ghost predicate Sorted(ws: seq<Window>) {
    && Ascending(ws) && NonEmpty(ws)
    && forall i :: 0 <= i < |ws| ==> 0 <= ws[i].base && ws[i].high < WORD
  }

  /** A table the hardware can tell apart: sorted and disjoint. */
  ghost predicate Decodable(ws: seq<Window>) {
    Sorted(ws) && AllDisjoint(ws)
  }

  lemma {:induction false} HighsAscend(ws: seq<Window>, i: nat, j: nat)
    requires Decodable(ws) && i < j < |ws|
    ensures ws[i].high < ws[j].base
  {
    assert ws[i].base <= ws[j].base && ws[j].base <= ws[j].high && Disjoint(ws[i], ws[j]);
  }

  lemma {:induction false} EncodeOnly(sel: seq<bool>, i: nat)
    requires i < |sel| && sel[i]
    requires forall k :: 0 <= k < |sel| && k != i ==> !sel[k]
    ensures Encode(sel) == i
  {
    if i < |sel| - 1 {
      EncodeOnly(sel[..|sel| - 1], i);
    }
  }

  lemma {:induction false} LowestIsFirst(c: seq<Window>)
    requires c != [] && Ascending(c) && c[0].base <= 0xFFFF_FFFF
    ensures LowestBase(c) == c[0].base
  {
    var n := |c| - 1;
    if n > 0 {
      LowestIsFirst(c[..n]);
    } else {
      assert LowestBase(c[..0]) == 0xFFFF_FFFF;
    }
  }

  /** Position g of the device list is slave g % max of chunk g / max. */
  lemma {:induction false} Locate(ws: seq<Window>, max: int, g: nat) returns (i: nat, j: nat)
    requires max > 0 && g < |ws|
    ensures i == g / max && j == g % max && g == i * max + j
    ensures i < |Chunks(ws, max)| && j < |Chunks(ws, max)[i]|
    ensures Chunks(ws, max)[i][j] == ws[g]
  {
    DivModSplit(g, max);
    ChunkCount(|ws|, max);
    if g / max < 0 { MulMonotone(max, g / max, -1); }
    i, j := g / max, g % max;
    if i >= CeilDiv(|ws|, max) {
      MulMonotone(max, CeilDiv(|ws|, max), i);
    }
    ChunkSize(ws, max, i);
    ChunkElement(ws, max, i, j);
  }

  /** The primary range of chunk i contains an address iff it lies between the chunk's first base and last high. */
  lemma {:induction false} PrimaryHit(ws: seq<Window>, max: int, i: nat, a: int)
    requires max > 0 && Sorted(ws) && i < |Chunks(ws, max)|
    ensures var c := Chunks(ws, max)[i];
            Hierarchy(ws, max).PrimarySelect(a)[i] <==> c[0].base <= a <= c[|c| - 1].high
  {
    var cs := Chunks(ws, max);
    var c := cs[i];
    assert Slice(PrimaryTable(cs).addr, i) == Word(c[0].base);
    assert Slice(PrimaryTable(cs).high, i) == Word(c[|c| - 1].high);
    ChunkBases(ws, max, i, |c| - 1);
  }

  /** No device of a chunk starts before its first. */
  lemma {:induction false} ChunkBases(ws: seq<Window>, max: int, i: nat, j: nat)
    requires max > 0 && Sorted(ws) && i < |Chunks(ws, max)| && j < |Chunks(ws, max)[i]|
    ensures var c := Chunks(ws, max)[i];
            0 <= c[0].base <= c[j].base <= c[j].high < WORD
  {
    ChunkElement(ws, max, i, 0);
    ChunkElement(ws, max, i, j);
  }

  lemma {:induction false} ChunkAscends(ws: seq<Window>, max: int, i: nat)
    requires max > 0 && Sorted(ws) && i < |Chunks(ws, max)|
    ensures Ascending(Chunks(ws, max)[i])
  {
    var c := Chunks(ws, max)[i];
    forall p, q | 0 <= p < q < |c| ensures c[p].base <= c[q].base {
      ChunkElement(ws, max, i, p);
      ChunkElement(ws, max, i, q);
    }
  }

  /** Every device of a chunk lies between the chunk's first base and last high. */
  lemma {:induction false} ChunkSpan(ws: seq<Window>, max: int, i: nat, j: nat)
    requires max > 0 && Decodable(ws) && i < |Chunks(ws, max)| && j < |Chunks(ws, max)[i]|
    ensures var c := Chunks(ws, max)[i];
            0 <= c[0].base <= c[j].base <= c[j].high <= c[|c| - 1].high < WORD
  {
    var c := Chunks(ws, max)[i];
    ChunkElement(ws, max, i, 0);
    ChunkElement(ws, max, i, j);
    ChunkElement(ws, max, i, |c| - 1);
    if 0 < j { HighsAscend(ws, i * max, i * max + j); }
    if j < |c| - 1 { HighsAscend(ws, i * max + j, i * max + |c| - 1); }
  }

  /** Chunk ranges do not overlap, so the primary arbiter strobes at most one sub-arbiter and forwards the address
      relative to that chunk's first base. */
  lemma {:induction false} PrimaryForwards(ws: seq<Window>, max: int, i: nat, a: int)
    requires max > 0 && Decodable(ws) && i < |Chunks(ws, max)| && 0 <= a < WORD
    requires Hierarchy(ws, max).PrimarySelect(a)[i]
    ensures Hierarchy(ws, max).Forwarded(a) == a - Chunks(ws, max)[i][0].base
  {
    var m := Hierarchy(ws, max);
    var cs := Chunks(ws, max);
    PrimaryHit(ws, max, i, a);
    forall k | 0 <= k < |cs| && k != i ensures !m.PrimarySelect(a)[k] {
      PrimaryHit(ws, max, k, a);
      if k < i { ChunksApart(ws, max, k, i); } else { ChunksApart(ws, max, i, k); }
    }
    EncodeOnly(m.PrimarySelect(a), i);
    ChunkSpan(ws, max, i, 0);
    var c := cs[i];
    assert Slice(m.primary.addr, i) == c[0].base;
  }

  lemma {:induction false} ChunkStartsApart(max: int, i: nat, k: nat)
    requires max > 0 && i < k
    ensures i * max + max <= k * max
  {
    MulMonotone(max, i + 1, k);
    assert max * (i + 1) == i * max + max && max * k == k * max;
  }

  lemma {:induction false} ChunksApart(ws: seq<Window>, max: int, i: nat, k: nat)
    requires max > 0 && Decodable(ws) && i < k < |Chunks(ws, max)|
    ensures var cs := Chunks(ws, max); cs[i][|cs[i]| - 1].high < cs[k][0].base
  {
    var c := Chunks(ws, max)[i];
    ChunkStartsApart(max, i, k);
    ChunkElement(ws, max, i, |c| - 1);
    ChunkElement(ws, max, k, 0);
    var p, q := i * max + |c| - 1, k * max;
    HighsAscend(ws, p, q);
  }

  /** Slave j of a strobed sub-arbiter is selected iff the original address is in its absolute window. */
  lemma {:induction false} SubHit(ws: seq<Window>, max: int, i: nat, j: nat, a: int)
    requires max > 0 && Sorted(ws) && i < |Chunks(ws, max)| && j < |Chunks(ws, max)[i]|
    ensures var c := Chunks(ws, max)[i];
            && Slice(SubTable(c).addr, j) == c[j].base - c[0].base
            && Slice(SubTable(c).high, j) == c[j].high - c[0].base
            && (Select(SubTable(c), |c|, a - c[0].base)[j] <==> c[j].Contains(a))
  {
    ChunkBases(ws, max, i, j);
    ChunkAscends(ws, max, i);
    SubEntry(Chunks(ws, max)[i], j, a);
  }

  lemma {:induction false} SubEntry(c: seq<Window>, j: nat, a: int)
    requires j < |c| && Ascending(c) && 0 <= c[0].base <= c[j].base <= c[j].high < WORD
    ensures Slice(SubTable(c).addr, j) == c[j].base - c[0].base
    ensures Slice(SubTable(c).high, j) == c[j].high - c[0].base
    ensures Select(SubTable(c), |c|, a - c[0].base)[j] <==> c[j].Contains(a)
  {
    SubSlices(c, j);
  }

  lemma {:induction false} WordDifference(x: int, low: int)
    requires 0 <= low <= x < WORD
    ensures Word(low) == low && Word(Word(x) - low) == x - low
  {
  }

  lemma {:induction false} SubEntries(c: seq<Window>, j: nat)
    requires j < |c|
    ensures Slice(SubTable(c).addr, j) == Word(Word(c[j].base) - Word(LowestBase(c)))
    ensures Slice(SubTable(c).high, j) == Word(Word(c[j].high) - Word(LowestBase(c)))
  {
  }

  lemma {:induction false} SubSlices(c: seq<Window>, j: nat)
    requires j < |c| && Ascending(c) && 0 <= c[0].base <= c[j].base <= c[j].high < WORD
    ensures Slice(SubTable(c).addr, j) == c[j].base - c[0].base
    ensures Slice(SubTable(c).high, j) == c[j].high - c[0].base
  {
    SubEntries(c, j);
    LowestIsFirst(c);
    WordDifference(c[j].base, c[0].base);
    WordDifference(c[j].high, c[0].base);
  }

  lemma {:induction false} VectorWidth(ws: seq<Window>, max: int, a: int, k: nat)
    requires max > 0 && k < |Chunks(ws, max)|
    ensures |Hierarchy(ws, max).Vectors(a)[k]| == |Chunks(ws, max)[k]| <= max
    ensures k < |Chunks(ws, max)| - 1 ==> |Hierarchy(ws, max).Vectors(a)[k]| == max
  {
    SlaveCountIsChunkSize(ws, max, k);
    ChunkSize(ws, max, k);
  }

  lemma {:induction false} VectorWidths(ws: seq<Window>, max: int, a: int)
    requires max > 0
    ensures var vs := Hierarchy(ws, max).Vectors(a);
            && |vs| == |Chunks(ws, max)| && EvenlyWide(vs, max)
            && forall k :: 0 <= k < |vs| ==> |vs[k]| == |Chunks(ws, max)[k]|
  {
    var vs := Hierarchy(ws, max).Vectors(a);
    forall k | 0 <= k < |vs| ensures |vs[k]| == |Chunks(ws, max)[k]| <= max && (k < |vs| - 1 ==> |vs[k]| == max) {
      VectorWidth(ws, max, a, k);
    }
  }

  /** There is one strobe line per device. */
  lemma {:induction false} StrobeCount(ws: seq<Window>, max: int, a: int)
    requires max > 0
    ensures |Hierarchy(ws, max).Strobes(a)| == |ws|
  {
    var vs := Hierarchy(ws, max).Vectors(a);
    ChunkCount(|ws|, max);
    VectorWidths(ws, max, a);
    if ws == [] {
      assert Reversed(vs) == [];
    } else {
      assert |vs| > 0 && Chunks(ws, max)[0] != [];
      ConcatBit(vs, max, 0, 0);
      ChunkSize(ws, max, |vs| - 1);
    }
  }

  /** One device: the line at its global position is strobed exactly for its own addresses. */
  lemma {:induction false} StrobeAt(ws: seq<Window>, max: int, g: nat, a: int)
    requires max > 0 && Decodable(ws) && g < |ws| && 0 <= a < WORD
    ensures |Hierarchy(ws, max).Strobes(a)| == |ws|
    ensures Hierarchy(ws, max).Strobes(a)[g] <==> ws[g].Contains(a)
  {
    var i, j := Locate(ws, max, g);
    StrobeCount(ws, max, a);
    StrobeLine(ws, max, i, j, g, a);
    SubStrobeAt(ws, max, i, j, a);
  }

  /** Line g = i * max + j is slave j of sub-arbiter i. */
  lemma {:induction false} StrobeLine(ws: seq<Window>, max: int, i: nat, j: nat, g: nat, a: int)
    requires max > 0 && i < |Chunks(ws, max)| && j < |Chunks(ws, max)[i]| && g == i * max + j
    ensures |Hierarchy(ws, max).SubStrobes(i, a)| == |Chunks(ws, max)[i]| && g < |Hierarchy(ws, max).Strobes(a)|
    ensures Hierarchy(ws, max).Strobes(a)[g] == Hierarchy(ws, max).SubStrobes(i, a)[j]
  {
    VectorWidths(ws, max, a);
    ConcatAt(Hierarchy(ws, max).Vectors(a), max, i, j, g);
  }

  lemma {:induction false} SubStrobeAt(ws: seq<Window>, max: int, i: nat, j: nat, a: int)
    requires max > 0 && Decodable(ws) && 0 <= a < WORD
    requires i < |Chunks(ws, max)| && j < |Chunks(ws, max)[i]|
    ensures |Hierarchy(ws, max).SubStrobes(i, a)| == |Chunks(ws, max)[i]|
    ensures Hierarchy(ws, max).SubStrobes(i, a)[j] <==> Chunks(ws, max)[i][j].Contains(a)
  {
    var m := Hierarchy(ws, max);
    SlaveCountIsChunkSize(ws, max, i);
    SubHit(ws, max, i, j, a);
    PrimaryHit(ws, max, i, a);
    ChunkSpan(ws, max, i, j);
    if m.PrimarySelect(a)[i] {
      PrimaryForwards(ws, max, i, a);
    }
  }

  /** The address a selected device reads from its sub-arbiter's bus word is relative to its own base. */
  lemma {:induction false} AddressAt(ws: seq<Window>, max: int, g: nat, a: int)
    requires max > 0 && Decodable(ws) && g < |ws| && ws[g].Contains(a)
    ensures g / max < |Chunks(ws, max)|
    ensures Hierarchy(ws, max).AddressSlice(g / max, a) == a - ws[g].base
  {
    var m := Hierarchy(ws, max);
    var i, j := Locate(ws, max, g);
    var c := Chunks(ws, max)[i];
    ChunkSpan(ws, max, i, j);
    PrimaryHit(ws, max, i, a);
    PrimaryForwards(ws, max, i, a);
    SlaveCountIsChunkSize(ws, max, i);
    var sel := Select(m.subs[i], m.slaves[i], m.Forwarded(a));
    forall k | 0 <= k < |c| ensures sel[k] <==> k == j {
      SubHit(ws, max, i, k, a);
      ChunkElement(ws, max, i, k);
      if k < j { HighsAscend(ws, i * max + k, g); }
      if j < k { HighsAscend(ws, g, i * max + k); }
    }
    EncodeOnly(sel, j);
    SubHit(ws, max, i, j, a);
  }

  /** The flat arbiter strobes exactly the devices whose window contains the address. */
  lemma {:induction false} FlatHit(ws: seq<Window>, g: nat, a: int)
    requires Sorted(ws) && g < |ws|
    ensures FlatStrobes(ws, a)[g] <==> ws[g].Contains(a)
  {
    assert Slice(FlatTable(ws).addr, g) == Word(ws[g].base);
    assert Slice(FlatTable(ws).high, g) == Word(ws[g].high);
    assert ws[g].base <= ws[g].high;
  }

  lemma {:induction false} FlatAddressAt(ws: seq<Window>, g: nat, a: int)
    requires Decodable(ws) && g < |ws| && ws[g].Contains(a)
    ensures FlatAddress(ws, a) == a - ws[g].base
  {
    var flat := FlatStrobes(ws, a);
    forall k | 0 <= k < |ws| ensures flat[k] <==> k == g {
      FlatHit(ws, k, a);
      if k < g { HighsAscend(ws, k, g); }
      if g < k { HighsAscend(ws, g, k); }
    }
    EncodeOnly(flat, g);
    assert Slice(FlatTable(ws).addr, g) == Word(ws[g].base);
  }

  /** For every address, the two-level hierarchy strobes exactly the lines one flat arbiter over all devices would
      strobe, and no line exactly when the flat arbiter strobes none; the selected device sees the same relative
      address on the bus word of its chunk. */
  lemma {:induction false} TwoLevelIsFlat(ws: seq<Window>, max: int, a: int)
    requires max > 0 && Decodable(ws) && 0 <= a < WORD
    ensures Hierarchy(ws, max).Strobes(a) == FlatStrobes(ws, a)
    ensures forall g :: 0 <= g < |ws| && FlatStrobes(ws, a)[g] ==>
              && 0 <= g / max < |Chunks(ws, max)|
              && Hierarchy(ws, max).AddressSlice(g / max, a) == FlatAddress(ws, a)
  {
    if ws == [] {
      ChunkCount(0, max);
    } else {
      StrobeAt(ws, max, 0, a);
      forall g | 0 <= g < |ws| ensures Hierarchy(ws, max).Strobes(a)[g] == FlatStrobes(ws, a)[g] {
        StrobeAt(ws, max, g, a);
        FlatHit(ws, g, a);
      }
    }
    forall g | 0 <= g < |ws| && FlatStrobes(ws, a)[g]
      ensures 0 <= g / max < |Chunks(ws, max)|
      ensures Hierarchy(ws, max).AddressSlice(g / max, a) == FlatAddress(ws, a)
    {
      FlatHit(ws, g, a);
      FlatAddressAt(ws, g, a);
      AddressAt(ws, max, g, a);
      var _, _ := Locate(ws, max, g);
    }
  }
}

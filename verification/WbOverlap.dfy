/** Two-level decode of windows that may overlap: exactly when it still agrees with one flat table. */
module WbOverlap {
  import opened Arith
  import opened WbPlacement
  import opened WbArbiter
  import opened WbDecode

  /** A chunk's primary range runs from its first base to its last high. */
  function Low(c: seq<Window>): int
    requires c != []
  {
    c[0].base
  }

  function Top(c: seq<Window>): int
    requires c != []
  {
    c[|c| - 1].high
  }

  ghost predicate Spans(c: seq<Window>, a: int)
    requires c != []
  {
    Low(c) <= a <= Top(c)
  }

  ghost predicate NoneEmpty(cs: seq<seq<Window>>) {
    forall i :: 0 <= i < |cs| ==> cs[i] != []
  }

  /** No device reaches beyond the last high of its chunk. */
  ghost predicate Capped(cs: seq<seq<Window>>)
    requires NoneEmpty(cs)
  {
    forall i, j :: 0 <= i < |cs| && 0 <= j < |cs[i]| ==> cs[i][j].high <= Top(cs[i])
  }

  /** Where a later chunk starts inside an earlier one, the devices of the earlier one all start together and last as
      long as the two ranges overlap. */
  ghost predicate Overlaid(c: seq<Window>, d: seq<Window>)
    requires c != [] && d != []
  {
    Low(c) < Low(d) <= Top(c) ==>
      forall j :: 0 <= j < |c| ==> c[j].base == Low(c) && c[j].high >= Min(Top(c), Top(d))
  }

  ghost predicate Tolerant(cs: seq<seq<Window>>)
    requires NoneEmpty(cs)
  {
    Capped(cs) && forall i, e :: 0 <= i < e < |cs| ==> Overlaid(cs[i], cs[e])
  }

  // ---------------------------------------------------------------------------------------------------------
  // What a sub-arbiter strobes
  // ---------------------------------------------------------------------------------------------------------

  /** The encoder returns the highest line that is set. */
  lemma {:induction false} EncodeHighest(sel: seq<bool>, e: nat)
    requires e < |sel| && sel[e] && forall k :: e < k < |sel| ==> !sel[k]
    ensures Encode(sel) == e
  {
    if e < |sel| - 1 {
      EncodeHighest(sel[..|sel| - 1], e);
    }
  }

  /** The highest chunk whose range contains an address. */
  ghost predicate Highest(cs: seq<seq<Window>>, e: nat, a: int)
    requires NoneEmpty(cs)
  {
    e < |cs| && Spans(cs[e], a) && forall k :: e < k < |cs| ==> !Spans(cs[k], a)
  }

  lemma {:induction false} HighestFrom(cs: seq<seq<Window>>, i: nat, a: int, n: nat) returns (e: nat)
    requires NoneEmpty(cs) && i < n <= |cs| && Spans(cs[i], a) && forall k :: n <= k < |cs| ==> !Spans(cs[k], a)
    ensures i <= e && Highest(cs, e, a)
    decreases n
  {
    if Spans(cs[n - 1], a) {
      e := n - 1;
    } else {
      e := HighestFrom(cs, i, a, n - 1);
    }
  }

  lemma {:induction false} LowsAscend(ws: seq<Window>, max: int, i: nat, e: nat)
    requires max > 0 && Sorted(ws) && i <= e < |Chunks(ws, max)|
    ensures Low(Chunks(ws, max)[i]) <= Low(Chunks(ws, max)[e])
    ensures i < e ==> forall j :: 0 <= j < |Chunks(ws, max)[i]| ==> Chunks(ws, max)[i][j].base <= Low(Chunks(ws, max)[e])
  {
    if i < e {
      ChunkElement(ws, max, e, 0);
      forall j | 0 <= j < |Chunks(ws, max)[i]| ensures Chunks(ws, max)[i][j].base <= Low(Chunks(ws, max)[e]) {
        ChunkElement(ws, max, i, j);
        ChunkStartsApart(max, i, e);
      }
    }
  }

  lemma {:induction false} SelectsSpans(ws: seq<Window>, max: int, a: int)
    requires max > 0 && Sorted(ws)
    ensures var sel := Hierarchy(ws, max).PrimarySelect(a);
            |sel| == |Chunks(ws, max)| && forall k :: 0 <= k < |sel| ==> (sel[k] <==> Spans(Chunks(ws, max)[k], a))
  {
    forall k | 0 <= k < |Chunks(ws, max)|
      ensures Hierarchy(ws, max).PrimarySelect(a)[k] <==> Spans(Chunks(ws, max)[k], a)
    {
      PrimaryHit(ws, max, k, a);
    }
  }

  lemma {:induction false} PrimaryBase(ws: seq<Window>, max: int, e: nat)
    requires max > 0 && Sorted(ws) && e < |Chunks(ws, max)|
    ensures var t := Hierarchy(ws, max).primary;
            e < |t.addr| && Slice(t.addr, e) == Low(Chunks(ws, max)[e])
  {
    ChunkBases(ws, max, e, 0);
    assert Slice(PrimaryTable(Chunks(ws, max)).addr, e) == Word(Low(Chunks(ws, max)[e]));
  }

  /** The primary arbiter forwards addresses relative to the highest chunk they are in. */
  lemma {:induction false} ForwardsHighest(ws: seq<Window>, max: int, e: nat, a: int)
    requires max > 0 && Sorted(ws) && 0 <= a < WORD && Highest(Chunks(ws, max), e, a)
    ensures Hierarchy(ws, max).Forwarded(a) == a - Low(Chunks(ws, max)[e])
  {
    SelectsSpans(ws, max, a);
    EncodeHighest(Hierarchy(ws, max).PrimarySelect(a), e);
    PrimaryBase(ws, max, e);
    ChunkBases(ws, max, e, 0);
  }

  /** A sub-arbiter is silent outside its chunk's range. */
  lemma {:induction false} Silent(ws: seq<Window>, max: int, i: nat, j: nat, a: int)
    requires max > 0 && Sorted(ws) && i < |Chunks(ws, max)| && j < |Chunks(ws, max)[i]| && !Spans(Chunks(ws, max)[i], a)
    ensures |Hierarchy(ws, max).SubStrobes(i, a)| == |Chunks(ws, max)[i]| && !Hierarchy(ws, max).SubStrobes(i, a)[j]
  {
    SlaveCountIsChunkSize(ws, max, i);
    PrimaryHit(ws, max, i, a);
  }

  /** Inside, it sees the address moved down by the distance to the highest chunk. */
  lemma {:induction false} Shifted(ws: seq<Window>, max: int, i: nat, j: nat, a: int, e: nat)
    requires max > 0 && Sorted(ws) && 0 <= a < WORD && i < |Chunks(ws, max)| && j < |Chunks(ws, max)[i]|
    requires Spans(Chunks(ws, max)[i], a) && Highest(Chunks(ws, max), e, a)
    ensures |Hierarchy(ws, max).SubStrobes(i, a)| == |Chunks(ws, max)[i]|
    ensures var cs := Chunks(ws, max);
            Hierarchy(ws, max).SubStrobes(i, a)[j] <==> cs[i][j].Contains(a - (Low(cs[e]) - Low(cs[i])))
  {
    var cs: seq<seq<Window>> := Chunks(ws, max);
    SlaveCountIsChunkSize(ws, max, i);
    PrimaryHit(ws, max, i, a);
    ForwardsHighest(ws, max, e, a);
    SubHit(ws, max, i, j, a - (Low(cs[e]) - Low(cs[i])));
  }

  // ---------------------------------------------------------------------------------------------------------
  // The condition
  // ---------------------------------------------------------------------------------------------------------

  /** Slave j of sub-arbiter i is strobed exactly for the addresses in its window. */
  ghost predicate Exact(ws: seq<Window>, max: int, i: nat, j: nat, a: int)
    requires max > 0 && i < |Chunks(ws, max)| && j < |Chunks(ws, max)[i]|
  {
    var s := Hierarchy(ws, max).SubStrobes(i, a);
    j < |s| && (s[j] <==> Chunks(ws, max)[i][j].Contains(a))
  }

  lemma {:induction false} TolerantIsExact(ws: seq<Window>, max: int, i: nat, j: nat, a: int)
    requires max > 0 && Sorted(ws) && 0 <= a < WORD && i < |Chunks(ws, max)| && j < |Chunks(ws, max)[i]|
    requires Tolerant(Chunks(ws, max))
    ensures Exact(ws, max, i, j, a)
  {
    var cs: seq<seq<Window>> := Chunks(ws, max);
    ChunkBases(ws, max, i, j);
    assert cs[i][j].high <= Top(cs[i]);
    if !Spans(cs[i], a) {
      Silent(ws, max, i, j, a);
    } else {
      var e := HighestFrom(cs, i, a, |cs|);
      Shifted(ws, max, i, j, a, e);
      LowsAscend(ws, max, i, e);
      if Low(cs[i]) < Low(cs[e]) {
        assert Overlaid(cs[i], cs[e]);
      }
    }
  }

  ghost predicate AllExact(ws: seq<Window>, max: int)
    requires max > 0
  {
    forall i, j, a :: 0 <= i < |Chunks(ws, max)| && 0 <= j < |Chunks(ws, max)[i]| && 0 <= a < WORD ==>
      Exact(ws, max, i, j, a)
  }

  lemma {:induction false} ExactIsCapped(ws: seq<Window>, max: int, i: nat, j: nat)
    requires max > 0 && Sorted(ws) && i < |Chunks(ws, max)| && j < |Chunks(ws, max)[i]| && AllExact(ws, max)
    ensures Chunks(ws, max)[i][j].high <= Top(Chunks(ws, max)[i])
  {
    var cs: seq<seq<Window>> := Chunks(ws, max);
    ChunkBases(ws, max, i, j);
    var a := cs[i][j].high;
    assert Exact(ws, max, i, j, a);
    if !Spans(cs[i], a) {
      Silent(ws, max, i, j, a);
    }
  }

  /** At the start of the later chunk: the devices of the earlier one start together. */
  lemma {:induction false} StartTogether(ws: seq<Window>, max: int, i: nat, e: nat, j: nat)
    requires max > 0 && Sorted(ws) && AllExact(ws, max) && i < e < |Chunks(ws, max)| && j < |Chunks(ws, max)[i]|
    requires var cs := Chunks(ws, max); Low(cs[i]) < Low(cs[e]) <= Top(cs[i])
    ensures var cs := Chunks(ws, max); cs[i][j].base == Low(cs[i]) && cs[i][j].high >= Low(cs[e])
  {
    var cs: seq<seq<Window>> := Chunks(ws, max);
    var a, last := Low(cs[e]), |cs[i]| - 1;
    ChunkBases(ws, max, e, 0);
    ChunkBases(ws, max, e, |cs[e]| - 1);
    ChunkBases(ws, max, i, j);
    ChunkBases(ws, max, i, last);
    LowsAscend(ws, max, i, e);
    var h := HighestFrom(cs, e, a, |cs|);
    LowsAscend(ws, max, e, h);
    assert Low(cs[h]) == a;
    assert Exact(ws, max, i, last, a) && Exact(ws, max, i, j, a);
    Shifted(ws, max, i, last, a, h);
    Shifted(ws, max, i, j, a, h);
    ChunkAscends(ws, max, i);
    assert cs[i][j].base <= cs[i][last].base;
  }

  /** A device that answers up to a - 1 answers a as well while both ranges go on: it still hears the addresses behind. */
  lemma {:induction false} ReachesOn(ws: seq<Window>, max: int, i: nat, e: nat, j: nat, a: int)
    requires max > 0 && Sorted(ws) && i < e < |Chunks(ws, max)| && j < |Chunks(ws, max)[i]| && 0 <= a < WORD
    requires var cs := Chunks(ws, max);
             && Low(cs[i]) < Low(cs[e]) <= a && Spans(cs[i], a) && Spans(cs[e], a)
             && cs[i][j].base == Low(cs[i]) && a - 1 <= cs[i][j].high
    requires Exact(ws, max, i, j, a)
    ensures a <= Chunks(ws, max)[i][j].high
  {
    var cs: seq<seq<Window>> := Chunks(ws, max);
    var h := HighestFrom(cs, e, a, |cs|);
    LowsAscend(ws, max, e, h);
    Shifted(ws, max, i, j, a, h);
  }

  /** And they last as long as the ranges overlap. */
  lemma {:induction false} LastTogether(ws: seq<Window>, max: int, i: nat, e: nat, j: nat)
    requires max > 0 && Sorted(ws) && AllExact(ws, max) && i < e < |Chunks(ws, max)| && j < |Chunks(ws, max)[i]|
    requires var cs := Chunks(ws, max); Low(cs[i]) < Low(cs[e]) <= Top(cs[i])
    ensures var cs := Chunks(ws, max); cs[i][j].high >= Min(Top(cs[i]), Top(cs[e]))
  {
    var cs: seq<seq<Window>> := Chunks(ws, max);
    StartTogether(ws, max, i, e, j);
    ChunkBases(ws, max, i, j);
    ChunkBases(ws, max, i, |cs[i]| - 1);
    var a := cs[i][j].high + 1;
    if a <= Min(Top(cs[i]), Top(cs[e])) {
      assert Exact(ws, max, i, j, a);
      ReachesOn(ws, max, i, e, j, a);
    }
  }

  lemma {:induction false} ExactIffTolerant(ws: seq<Window>, max: int)
    requires max > 0 && Sorted(ws)
    ensures AllExact(ws, max) <==> Tolerant(Chunks(ws, max))
  {
    var cs: seq<seq<Window>> := Chunks(ws, max);
    if Tolerant(cs) {
      forall i, j, a | 0 <= i < |cs| && 0 <= j < |cs[i]| && 0 <= a < WORD ensures Exact(ws, max, i, j, a) {
        TolerantIsExact(ws, max, i, j, a);
      }
    }
    if AllExact(ws, max) {
      forall i, j | 0 <= i < |cs| && 0 <= j < |cs[i]| ensures cs[i][j].high <= Top(cs[i]) {
        ExactIsCapped(ws, max, i, j);
      }
      forall i, e | 0 <= i < e < |cs| ensures Overlaid(cs[i], cs[e]) {
        ExactIsOverlaid(ws, max, i, e);
      }
    }
  }

  lemma {:induction false} ExactIsOverlaid(ws: seq<Window>, max: int, i: nat, e: nat)
    requires max > 0 && Sorted(ws) && AllExact(ws, max) && i < e < |Chunks(ws, max)|
    ensures Overlaid(Chunks(ws, max)[i], Chunks(ws, max)[e])
  {
    var c, d := Chunks(ws, max)[i], Chunks(ws, max)[e];
    if Low(c) < Low(d) <= Top(c) {
      forall j | 0 <= j < |c| ensures c[j].base == Low(c) && c[j].high >= Min(Top(c), Top(d)) {
        StartTogether(ws, max, i, e, j);
        LastTogether(ws, max, i, e, j);
      }
    }
  }

  // ---------------------------------------------------------------------------------------------------------
  // Main result
  // ---------------------------------------------------------------------------------------------------------

  ghost predicate SameStrobes(ws: seq<Window>, max: int)
    requires max > 0
  {
    forall a :: 0 <= a < WORD ==> Hierarchy(ws, max).Strobes(a) == FlatStrobes(ws, a)
  }

  /** One line of the hierarchy against the same line of the flat table. */
  lemma {:induction false} LineExactIff(ws: seq<Window>, max: int, i: nat, j: nat, g: nat, a: int)
    requires max > 0 && Sorted(ws) && i < |Chunks(ws, max)| && j < |Chunks(ws, max)[i]| && g == i * max + j
    ensures g < |ws| == |Hierarchy(ws, max).Strobes(a)|
    ensures Hierarchy(ws, max).Strobes(a)[g] == FlatStrobes(ws, a)[g] <==> Exact(ws, max, i, j, a)
  {
    DeviceAt(ws, max, i, j, g);
    StrobeCount(ws, max, a);
    FlatHit(ws, g, a);
    SubLine(ws, max, i, j, g, a);
  }

  lemma {:induction false} DeviceAt(ws: seq<Window>, max: int, i: nat, j: nat, g: nat)
    requires max > 0 && i < |Chunks(ws, max)| && j < |Chunks(ws, max)[i]| && g == i * max + j
    ensures g < |ws| && Chunks(ws, max)[i][j] == ws[g]
  {
    ChunkElement(ws, max, i, j);
  }

  lemma {:induction false} SubLine(ws: seq<Window>, max: int, i: nat, j: nat, g: nat, a: int)
    requires max > 0 && i < |Chunks(ws, max)| && j < |Chunks(ws, max)[i]| && g == i * max + j
    ensures g < |Hierarchy(ws, max).Strobes(a)|
    ensures Exact(ws, max, i, j, a) <==> (Hierarchy(ws, max).Strobes(a)[g] <==> Chunks(ws, max)[i][j].Contains(a))
  {
    StrobeLine(ws, max, i, j, g, a);
  }

  lemma {:induction false} SameIsExact(ws: seq<Window>, max: int, i: nat, j: nat, a: int)
    requires max > 0 && Sorted(ws) && 0 <= a < WORD && i < |Chunks(ws, max)| && j < |Chunks(ws, max)[i]|
    requires Hierarchy(ws, max).Strobes(a) == FlatStrobes(ws, a)
    ensures Exact(ws, max, i, j, a)
  {
    ChunkElement(ws, max, i, j);
    LineExactIff(ws, max, i, j, i * max + j, a);
  }

  lemma {:induction false} ExactIsSame(ws: seq<Window>, max: int, a: int)
    requires max > 0 && Sorted(ws) && 0 <= a < WORD && AllExact(ws, max)
    ensures Hierarchy(ws, max).Strobes(a) == FlatStrobes(ws, a)
  {
    StrobeCount(ws, max, a);
    forall g | 0 <= g < |ws| ensures Hierarchy(ws, max).Strobes(a)[g] == FlatStrobes(ws, a)[g] {
      ExactLine(ws, max, g, a);
    }
  }

  lemma {:induction false} ExactLine(ws: seq<Window>, max: int, g: nat, a: int)
    requires max > 0 && Sorted(ws) && 0 <= a < WORD && AllExact(ws, max) && g < |ws|
    ensures |Hierarchy(ws, max).Strobes(a)| == |ws| && Hierarchy(ws, max).Strobes(a)[g] == FlatStrobes(ws, a)[g]
  {
    var i, j := Locate(ws, max, g);
    LineExactIff(ws, max, i, j, g, a);
    assert Exact(ws, max, i, j, a);
  }

  /** For every sorted list, overlapping or not, the hierarchy strobes the lines of the flat table for every address if
      and only if no device reaches beyond the last high of its chunk, and wherever a later chunk starts inside an
      earlier one the earlier devices start together and last as long as the ranges overlap. */
  lemma {:induction false} SameStrobesIff(ws: seq<Window>, max: int)
    requires max > 0 && Sorted(ws)
    ensures SameStrobes(ws, max) <==> Tolerant(Chunks(ws, max))
  {
    ExactIffTolerant(ws, max);
    if SameStrobes(ws, max) {
      forall i, j, a | 0 <= i < |Chunks(ws, max)| && 0 <= j < |Chunks(ws, max)[i]| && 0 <= a < WORD
        ensures Exact(ws, max, i, j, a)
      {
        SameIsExact(ws, max, i, j, a);
      }
    }
    if AllExact(ws, max) {
      forall a | 0 <= a < WORD ensures Hierarchy(ws, max).Strobes(a) == FlatStrobes(ws, a) {
        ExactIsSame(ws, max, a);
      }
    }
  }

  /** A long window in front of a short one: the chunk's range ends with the short one, and address 50 is lost. */
  lemma {:induction false} LongWindowIsCut()
    ensures var ws := [Window(0, 100), Window(10, 20)];
            Sorted(ws) && !SameStrobes(ws, 2) && Hierarchy(ws, 2).Strobes(50) != FlatStrobes(ws, 50)
  {
    var ws := [Window(0, 100), Window(10, 20)];
    ChunkCount(2, 2);
    assert CeilDiv(2, 2) == 1;
    assert Chunk(ws, 2, 0) == ws[0..2] == ws;
    assert Chunks(ws, 2)[0] == ws;
    FlatHit(ws, 0, 50);
    Silent(ws, 2, 0, 0, 50);
    StrobeLine(ws, 2, 0, 0, 0, 50);
  }
}

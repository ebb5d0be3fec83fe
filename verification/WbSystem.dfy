/** Placement, sorting and decode put together. Slave indices are handed out in visit order, the tables are emitted
    in address order; the bus reaches the right device exactly when the two orders agree. */
module WbSystem {
  import opened WbPlacement
  import opened WbArbiter
  import opened WbDecode
  import opened Wrappers

  // ---------------------------------------------------------------------------------------------------------
  // Sorting the device list by base address
  // ---------------------------------------------------------------------------------------------------------

  /** Stable insertion behind every window that does not start later. */
  function Insert(ts: seq<Window>, w: Window): seq<Window> {
    if ts == [] || ts[|ts| - 1].base <= w.base then ts + [w]
    else Insert(ts[..|ts| - 1], w) + [ts[|ts| - 1]]
  }

  /** sorted(devices, key = base address), a stable sort. */
  function SortByBase(ws: seq<Window>): seq<Window> {
    if ws == [] then [] else Insert(SortByBase(ws[..|ws| - 1]), ws[|ws| - 1])
  }

  lemma {:induction false} InsertPermutes(ts: seq<Window>, w: Window)
    ensures multiset(Insert(ts, w)) == multiset(ts) + multiset{w}
    ensures |Insert(ts, w)| == |ts| + 1
  {
    if ts != [] && ts[|ts| - 1].base > w.base {
      InsertPermutes(ts[..|ts| - 1], w);
      assert ts == ts[..|ts| - 1] + [ts[|ts| - 1]];
    }
  }

  lemma {:induction false} InsertAscends(ts: seq<Window>, w: Window)
    requires Ascending(ts)
    ensures Ascending(Insert(ts, w))
  {
    if ts != [] && ts[|ts| - 1].base > w.base {
      var init, last := ts[..|ts| - 1], ts[|ts| - 1];
      InsertAscends(init, w);
      InsertPermutes(init, w);
      forall k | 0 <= k < |Insert(init, w)| ensures Insert(init, w)[k].base <= last.base {
        assert Insert(init, w)[k] in multiset(init) + multiset{w};
      }
    }
  }

  lemma {:induction false} SortPermutes(ws: seq<Window>)
    ensures multiset(SortByBase(ws)) == multiset(ws)
    ensures |SortByBase(ws)| == |ws|
  {
    if ws != [] {
      var init, last := ws[..|ws| - 1], ws[|ws| - 1];
      SortPermutes(init);
      InsertPermutes(SortByBase(init), last);
      assert ws == init + [last];
    }
  }

  lemma {:induction false} SortAscends(ws: seq<Window>)
    ensures Ascending(SortByBase(ws))
  {
    if ws != [] {
      SortAscends(ws[..|ws| - 1]);
      InsertAscends(SortByBase(ws[..|ws| - 1]), ws[|ws| - 1]);
    }
  }

  lemma {:induction false} SortKeepsSorted(ws: seq<Window>)
    requires Ascending(ws)
    ensures SortByBase(ws) == ws
  {
    if ws != [] {
      SortKeepsSorted(ws[..|ws| - 1]);
      assert ws == ws[..|ws| - 1] + [ws[|ws| - 1]];
    }
  }

  /** Sorting is a permutation into address order that leaves exactly the sorted lists alone. */
  lemma {:induction false} SortSorts(ws: seq<Window>)
    ensures multiset(SortByBase(ws)) == multiset(ws)
    ensures |SortByBase(ws)| == |ws|
    ensures Ascending(SortByBase(ws))
    ensures SortByBase(ws) == ws <==> Ascending(ws)
  {
    SortPermutes(ws);
    SortAscends(ws);
    if Ascending(ws) {
      SortKeepsSorted(ws);
    }
  }

  lemma {:induction false} InsertKeepsDisjoint(ts: seq<Window>, w: Window)
    requires AllDisjoint(ts) && forall t :: t in ts ==> Disjoint(t, w)
    ensures AllDisjoint(Insert(ts, w))
  {
    if ts != [] && ts[|ts| - 1].base > w.base {
      var init, last := ts[..|ts| - 1], ts[|ts| - 1];
      InsertKeepsDisjoint(init, w);
      InsertPermutes(init, w);
      forall k | 0 <= k < |Insert(init, w)| ensures Disjoint(Insert(init, w)[k], last) {
        assert Insert(init, w)[k] in multiset(init) + multiset{w};
        if Insert(init, w)[k] in init {
          var q :| 0 <= q < |init| && init[q] == Insert(init, w)[k];
          assert Disjoint(ts[q], ts[|ts| - 1]);
        } else {
          assert Insert(init, w)[k] == w && last in ts;
        }
      }
    }
  }

  lemma {:induction false} SortKeepsDisjoint(ws: seq<Window>)
    requires AllDisjoint(ws)
    ensures AllDisjoint(SortByBase(ws))
  {
    if ws != [] {
      var init, last := ws[..|ws| - 1], ws[|ws| - 1];
      SortKeepsDisjoint(init);
      SortSorts(init);
      forall t | t in SortByBase(init) ensures Disjoint(t, last) {
        assert t in multiset(init);
        var q :| 0 <= q < |init| && init[q] == t;
        assert Disjoint(ws[q], ws[|ws| - 1]);
      }
      InsertKeepsDisjoint(SortByBase(init), last);
    }
  }

  // ---------------------------------------------------------------------------------------------------------
  // The bus as the devices see it
  // ---------------------------------------------------------------------------------------------------------

  ghost predicate InWordSpace(ws: seq<Window>) {
    forall i :: 0 <= i < |ws| ==> 0 <= ws[i].base && ws[i].high < WORD
  }

  lemma {:induction false} SortedIsDecodable(ws: seq<Window>)
    requires AllDisjoint(ws) && NonEmpty(ws) && InWordSpace(ws)
    ensures Decodable(SortByBase(ws))
  {
    SortSorts(ws);
    SortKeepsDisjoint(ws);
    forall i | 0 <= i < |ws|
      ensures var t := SortByBase(ws)[i]; 0 <= t.base <= t.high < WORD
    {
      assert SortByBase(ws)[i] in multiset(ws);
    }
  }

  /** Line k of the strobe bus, where `ws` are the windows in visit order: device k is wired to line k because its
      WBID localparam is its visit index. */
  ghost predicate Strobed(ws: seq<Window>, max: Option<int>, k: nat, x: int)
    requires max.Some? ==> max.value > 0
  {
    var lines := if max.None? then FlatStrobes(SortByBase(ws), x) else Hierarchy(SortByBase(ws), max.value).Strobes(x);
    k < |lines| && lines[k]
  }

  /** The address device k reads: the whole bus of a flat arbiter, or the word its sub_arb_id selects. */
  ghost function AddressSeen(ws: seq<Window>, max: Option<int>, k: nat, x: int): int
    requires max.Some? ==> max.value > 0
  {
    if max.None? then FlatAddress(SortByBase(ws), x)
    else
      var m := Hierarchy(SortByBase(ws), max.value);
      var sub := k / max.value;
      if 0 <= sub < |m.subs| then m.AddressSlice(sub, x) else -1
  }

  /** Every device is strobed for its own addresses and for no other address. */
  ghost predicate BusCorrect(ws: seq<Window>, max: Option<int>)
    requires max.Some? ==> max.value > 0
  {
    forall k, x :: 0 <= k < |ws| && 0 <= x < WORD ==> (Strobed(ws, max, k, x) <==> ws[k].Contains(x))
  }

  /** Whatever the visit order, line k answers to the k-th window in address order. */
  lemma {:induction false} LineServesRank(ws: seq<Window>, max: Option<int>, k: nat, x: int)
    requires max.Some? ==> max.value > 0
    requires AllDisjoint(ws) && NonEmpty(ws) && InWordSpace(ws) && k < |ws| && 0 <= x < WORD
    ensures |SortByBase(ws)| == |ws|
    ensures Strobed(ws, max, k, x) <==> SortByBase(ws)[k].Contains(x)
    ensures SortByBase(ws)[k].Contains(x) ==> AddressSeen(ws, max, k, x) == x - SortByBase(ws)[k].base
  {
    var ts := SortByBase(ws);
    SortSorts(ws);
    SortedIsDecodable(ws);
    FlatHit(ts, k, x);
    if max.Some? {
      TwoLevelIsFlat(ts, max.value, x);
    }
    if ts[k].Contains(x) {
      FlatAddressAt(ts, k, x);
    }
  }

  /** The bus is correct exactly when every visit index is the device's rank in the sorted table. */
  lemma {:induction false} CorrectIffAscending(ws: seq<Window>, max: Option<int>)
    requires max.Some? ==> max.value > 0
    requires AllDisjoint(ws) && NonEmpty(ws) && InWordSpace(ws)
    ensures BusCorrect(ws, max) <==> Ascending(ws)
  {
    var ts := SortByBase(ws);
    SortSorts(ws);
    if Ascending(ws) {
      forall k, x | 0 <= k < |ws| && 0 <= x < WORD ensures Strobed(ws, max, k, x) <==> ws[k].Contains(x) {
        LineServesRank(ws, max, k, x);
      }
    } else {
      var k :| 0 <= k < |ws| && ts[k] != ws[k];
      MisrankedMissesItsBase(ws, k);
      LineServesRank(ws, max, k, ws[k].base);
    }
  }

  lemma {:induction false} MisrankedMissesItsBase(ws: seq<Window>, k: nat)
    requires AllDisjoint(ws) && NonEmpty(ws) && k < |ws|
    requires |SortByBase(ws)| == |ws| && SortByBase(ws)[k] != ws[k]
    ensures ws[k].Contains(ws[k].base) && !SortByBase(ws)[k].Contains(ws[k].base)
  {
    SortPermutes(ws);
    var t := SortByBase(ws)[k];
    assert t in multiset(ws);
    var q :| 0 <= q < |ws| && ws[q] == t;
    if q < k { assert Disjoint(ws[q], ws[k]); } else { assert Disjoint(ws[k], ws[q]); }
  }

  /** Every device is strobed for its own addresses only; there it is alone and reads the address relative to its own
      base. */
  ghost predicate BusServes(ws: seq<Window>, max: Option<int>)
    requires max.Some? ==> max.value > 0
  {
    forall k, x :: 0 <= k < |ws| && 0 <= x < WORD ==> Served(ws, max, k, x)
  }

  ghost predicate Served(ws: seq<Window>, max: Option<int>, k: nat, x: int)
    requires max.Some? ==> max.value > 0
    requires k < |ws|
  {
    && (Strobed(ws, max, k, x) <==> ws[k].Contains(x))
    && (ws[k].Contains(x) ==> AddressSeen(ws, max, k, x) == x - ws[k].base)
    && (ws[k].Contains(x) ==> forall j :: 0 <= j < |ws| && j != k ==> !Strobed(ws, max, j, x))
  }

  lemma {:induction false} ServedWindowsDisjoint(ws: seq<Window>, max: Option<int>)
    requires max.Some? ==> max.value > 0
    requires NonEmpty(ws) && InWordSpace(ws) && BusServes(ws, max)
    ensures AllDisjoint(ws) && BusCorrect(ws, max)
  {
    forall k, x | 0 <= k < |ws| && 0 <= x < WORD ensures Strobed(ws, max, k, x) <==> ws[k].Contains(x) {
      assert Served(ws, max, k, x);
    }
    forall i, j | 0 <= i < j < |ws| ensures Disjoint(ws[i], ws[j]) {
      var x := if ws[i].base <= ws[j].base then ws[j].base else ws[i].base;
      assert Served(ws, max, i, x) && Served(ws, max, j, x);
    }
  }

  /** For windows in the 32-bit space the bus serves every device if and only if the windows are disjoint and visited
      in address order. */
  lemma {:induction false} ServesIff(ws: seq<Window>, max: Option<int>)
    requires max.Some? ==> max.value > 0
    requires NonEmpty(ws) && InWordSpace(ws)
    ensures BusServes(ws, max) <==> AllDisjoint(ws) && Ascending(ws)
  {
    if BusServes(ws, max) {
      ServedWindowsDisjoint(ws, max);
      CorrectIffAscending(ws, max);
    }
    if AllDisjoint(ws) && Ascending(ws) {
      SortSorts(ws);
      forall k, x | 0 <= k < |ws| && 0 <= x < WORD ensures Served(ws, max, k, x) {
        forall j | 0 <= j < |ws| ensures Strobed(ws, max, j, x) <==> ws[j].Contains(x) {
          LineServesRank(ws, max, j, x);
        }
        LineServesRank(ws, max, k, x);
        forall j | 0 <= j < |ws| && j != k ensures !(ws[k].Contains(x) && ws[j].Contains(x)) {
          assert if j < k then Disjoint(ws[j], ws[k]) else Disjoint(ws[k], ws[j]);
        }
      }
    }
  }

  /** What the requests have to meet: offsets that rise in visit order, requested windows that do not overlap, and no
      requested device that leaves the cursor on its last byte while others are still to be packed. */
  ghost predicate GoodRequests(rs: seq<Request>, us: seq<Request>, origin: int, a: int)
    requires a > 0
  {
    && AscendingOffsets(rs)
    && AllDisjoint(Place(rs, origin, a))
    && (us == [] || forall i :: 0 <= i < |rs| ==> !Stuck(rs, origin, a, i))
  }

  /** The whole chain, from requests to strobes and addresses, for every alignment: the generated interconnect serves
      every device if and only if the requests are good; flat and hierarchical arbiters alike. */
  lemma {:induction false} InterconnectCorrectIff(rs: seq<Request>, us: seq<Request>, origin: int, a: int, max: Option<int>)
    requires max.Some? ==> max.value > 0
    requires a > 0 && Sized(rs) && Sized(us) && AllFixed(rs) && NoneFixed(us)
    requires InWordSpace(Place(rs + us, origin, a))
    ensures BusServes(Place(rs + us, origin, a), max) <==> GoodRequests(rs, us, origin, a)
  {
    AscendingIff(rs, us, origin, a);
    DisjointIff(rs, us, origin, a);
    ServesIff(Place(rs + us, origin, a), max);
  }

  /** With alignment at least 2 and aligned offsets no device is ever stuck. */
  lemma {:induction false} AlignedRequestsIff(rs: seq<Request>, us: seq<Request>, origin: int, a: int)
    requires a >= 2 && Sized(rs) && AllFixed(rs) && AlignedOffsets(rs, a)
    ensures GoodRequests(rs, us, origin, a) <==> AscendingOffsets(rs) && AllDisjoint(Place(rs, origin, a))
  {
    AlignmentClearsCursor(rs, origin, a);
    CursorClearIffNoneStuck(rs, origin, a);
  }

  /** The visit index of every device is its rank in the address-sorted table if and only if the requested offsets
      rise in visit order. */
  lemma {:induction false} RankIffAscending(rs: seq<Request>, us: seq<Request>, origin: int, a: int)
    requires a > 0 && Sized(rs) && Sized(us) && AllFixed(rs) && NoneFixed(us)
    ensures SortByBase(Place(rs + us, origin, a)) == Place(rs + us, origin, a) <==> AscendingOffsets(rs)
  {
    AscendingIff(rs, us, origin, a);
    SortSorts(Place(rs + us, origin, a));
  }

  /** Two requested devices visited in falling address order answer to each other's addresses. */
  lemma {:induction false} FallingOffsetsSwapDevices()
    ensures var rs := [Request("gbe1", 0x16000, 0x16000), Request("gbe0", 0x16000, 0)];
            var ws := Place(rs, 0x10000, 4);
            && AllDisjoint(ws) && InWordSpace(ws) && !BusCorrect(ws, None)
            && Strobed(ws, None, 0, ws[1].base) && !Strobed(ws, None, 0, ws[0].base)
  {
    var rs := [Request("gbe1", 0x16000, 0x16000), Request("gbe0", 0x16000, 0)];
    var ws := Place(rs, 0x10000, 4);
    assert ws[0] == Window(0x26000, 0x3BFFF);
    assert ws[1] == Window(0x10000, 0x25FFF);
    assert ws == [ws[0], ws[1]];
    assert ws[..1] == [ws[0]] && ws[..0] == [];
    assert [ws[0]][..0] == [];
    assert SortByBase([]) == [] && SortByBase([ws[0]]) == [ws[0]];
    assert SortByBase(ws) == Insert([ws[0]], ws[1]) == [ws[1], ws[0]];
    LineServesRank(ws, None, 0, ws[1].base);
    LineServesRank(ws, None, 0, ws[0].base);
  }
}

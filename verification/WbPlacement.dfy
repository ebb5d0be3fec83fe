/** The address arithmetic of `wb_compute`: where each Wishbone device lands, as a function of the devices in
    visit order. The first pass places devices that ask for an offset, the second packs the others behind a
    cursor. */
module WbPlacement {
  import opened Arith

  /** What a device asks for. An offset of -1 means "anywhere". */
  datatype Request = Request(regname: string, nbytes: int, offset: int) {
    predicate Fixed() { offset != -1 }
  }

  /** The byte range [base, high] a device answers to. */
  datatype Window = Window(base: int, high: int) {
    predicate Contains(a: int) { base <= a <= high }
  }

  ghost predicate Disjoint(v: Window, w: Window) {
    v.high < w.base || w.high < v.base
  }

  ghost predicate AllDisjoint(ws: seq<Window>) {
    forall i, j :: 0 <= i < j < |ws| ==> Disjoint(ws[i], ws[j])
  }

  /** Table order is address order. */
  ghost predicate Ascending(ws: seq<Window>) {
    forall i, j :: 0 <= i < j < |ws| ==> ws[i].base <= ws[j].base
  }

  ghost predicate NonEmpty(ws: seq<Window>) {
    forall i :: 0 <= i < |ws| ==> ws[i].base <= ws[i].high
  }

  /** The window given to one device when the cursor stands at `cursor`. */
  function PlaceOne(r: Request, origin: int, cursor: int, a: int): Window
    requires a > 0
  {
    var base := if r.Fixed() then origin + r.offset else cursor;
    Window(base, base + RoundUp(r.nbytes, a) - 1)
  }

  /** The cursor afterwards. A device with a fixed offset moves it only if it ends beyond it (a strict test). */
  function Bump(r: Request, origin: int, cursor: int, a: int): int
    requires a > 0
  {
    var high := PlaceOne(r, origin, cursor, a).high;
    if r.Fixed() && high <= cursor then cursor else high + 1
  }

  /** The cursor after the first `n` devices have been visited. */
  function Cursor(rs: seq<Request>, n: nat, origin: int, a: int): int
    requires a > 0 && n <= |rs|
  {
    if n == 0 then origin else Bump(rs[n - 1], origin, Cursor(rs, n - 1, origin, a), a)
  }

  /** The windows of all devices, in visit order. */
  function Place(rs: seq<Request>, origin: int, a: int): (ws: seq<Window>)
    requires a > 0
    ensures |ws| == |rs|
  {
    seq(|rs|, k requires 0 <= k < |rs| => PlaceOne(rs[k], origin, Cursor(rs, k, origin, a), a))
  }

  ghost predicate AllFixed(rs: seq<Request>) {
    forall i :: 0 <= i < |rs| ==> rs[i].Fixed()
  }

  ghost predicate NoneFixed(rs: seq<Request>) {
    forall i :: 0 <= i < |rs| ==> !rs[i].Fixed()
  }

  ghost predicate Sized(rs: seq<Request>) {
    forall i :: 0 <= i < |rs| ==> rs[i].nbytes >= 1
  }

  ghost predicate AlignedOffsets(rs: seq<Request>, a: int)
    requires a > 0
  {
    forall i :: 0 <= i < |rs| ==> rs[i].offset % a == 0
  }

  /** The offsets asked for rise in visit order: what a caller can check before the allocator runs. */
  ghost predicate AscendingOffsets(rs: seq<Request>) {
    forall i, j :: 0 <= i < j < |rs| ==> rs[i].offset <= rs[j].offset
  }

  /** Every window holds its device, exceeds it by less than one alignment unit, and starts on an alignment
      boundary whenever the origin does. */
  lemma {:induction false} WindowsCoverAndAlign(rs: seq<Request>, origin: int, a: int, k: nat)
    requires a > 0 && k < |rs|
    requires forall i :: 0 <= i < |rs| && rs[i].Fixed() ==> rs[i].offset % a == 0
    ensures var w := Place(rs, origin, a)[k];
            && rs[k].nbytes <= w.high - w.base + 1 < rs[k].nbytes + a
            && (w.base - origin) % a == 0
            && (origin % a == 0 ==> w.base % a == 0)
  {
    CursorOnGrid(rs, k, origin, a);
    var w := Place(rs, origin, a)[k];
    assert (w.base - origin) % a == 0 by {
      if rs[k].Fixed() { assert w.base - origin == rs[k].offset; }
    }
    if origin % a == 0 {
      MultiplesClosed(w.base - origin, origin, a);
    }
  }

  /** The cursor stays on the alignment grid. */
  lemma {:induction false} CursorOnGrid(rs: seq<Request>, n: nat, origin: int, a: int)
    requires a > 0 && n <= |rs|
    requires forall i :: 0 <= i < |rs| && rs[i].Fixed() ==> rs[i].offset % a == 0
    ensures (Cursor(rs, n, origin, a) - origin) % a == 0
  {
    if n > 0 {
      var c := Cursor(rs, n - 1, origin, a);
      CursorOnGrid(rs, n - 1, origin, a);
      var w := PlaceOne(rs[n - 1], origin, c, a);
      var span := RoundUp(rs[n - 1].nbytes, a);
      assert (w.base - origin) % a == 0;
      MultiplesClosed(w.base - origin, span, a);
      assert w.high + 1 - origin == (w.base - origin) + span;
    } else {
      ModOfMultiple(0, a);
    }
  }

  /** The cursor never moves back. */
  lemma {:induction false} CursorMonotone(rs: seq<Request>, m: nat, n: nat, origin: int, a: int)
    requires a > 0 && m <= n <= |rs| && Sized(rs)
    ensures Cursor(rs, m, origin, a) <= Cursor(rs, n, origin, a)
    decreases n
  {
    if m < n {
      CursorMonotone(rs, m, n - 1, origin, a);
    }
  }

  /** What is visited later does not affect what is visited before. */
  lemma {:induction false} CursorPrefix(rs: seq<Request>, us: seq<Request>, n: nat, origin: int, a: int)
    requires a > 0 && n <= |rs|
    ensures Cursor(rs + us, n, origin, a) == Cursor(rs, n, origin, a)
  {
    if n > 0 {
      CursorPrefix(rs, us, n - 1, origin, a);
    }
  }

  lemma {:induction false} FixedPart(rs: seq<Request>, us: seq<Request>, origin: int, a: int, k: nat)
    requires a > 0 && k < |rs|
    ensures Place(rs + us, origin, a)[k] == Place(rs, origin, a)[k]
  {
    CursorPrefix(rs, us, k, origin, a);
  }

  /** Visiting one more device appends its window and moves the cursor. */
  lemma {:induction false} PlaceAppend(rs: seq<Request>, r: Request, origin: int, a: int)
    requires a > 0
    ensures var cursor := Cursor(rs, |rs|, origin, a);
            && Place(rs + [r], origin, a) == Place(rs, origin, a) + [PlaceOne(r, origin, cursor, a)]
            && Cursor(rs + [r], |rs| + 1, origin, a) == Bump(r, origin, cursor, a)
  {
    CursorPrefix(rs, [r], |rs|, origin, a);
    forall k | 0 <= k < |rs| ensures Place(rs + [r], origin, a)[k] == Place(rs, origin, a)[k] {
      FixedPart(rs, [r], origin, a, k);
    }
  }

  /** A fixed device is "stuck" if it ends exactly on the cursor it meets, so that the strict test leaves the
      cursor on an occupied byte, and no later device moves it on. */
  ghost predicate Stuck(rs: seq<Request>, origin: int, a: int, i: nat)
    requires a > 0 && i < |rs|
  {
    && rs[i].Fixed()
    && Place(rs, origin, a)[i].high == Cursor(rs, i, origin, a)
    && forall j :: i < j < |rs| ==> Place(rs, origin, a)[j].high <= Place(rs, origin, a)[i].high
  }

  ghost predicate CursorClear(rs: seq<Request>, origin: int, a: int)
    requires a > 0
  {
    forall i :: 0 <= i < |rs| ==> Place(rs, origin, a)[i].high < Cursor(rs, |rs|, origin, a)
  }

  /** A window ends at most on the cursor that follows it, and below it unless the strict test held. */
  lemma {:induction false} HighVsCursor(rs: seq<Request>, origin: int, a: int, i: nat)
    requires a > 0 && i < |rs| && Sized(rs)
    ensures Place(rs, origin, a)[i].high <= Cursor(rs, |rs|, origin, a)
    ensures Place(rs, origin, a)[i].high == Cursor(rs, |rs|, origin, a) ==>
              Place(rs, origin, a)[i].high == Cursor(rs, i, origin, a) && rs[i].Fixed()
  {
    CursorMonotone(rs, i, i + 1, origin, a);
    CursorMonotone(rs, i + 1, |rs|, origin, a);
  }

  /** Exactly when the cursor ends clear of every fixed window: no device is stuck. */
  lemma {:induction false} CursorClearIffNoneStuck(rs: seq<Request>, origin: int, a: int)
    requires a > 0 && Sized(rs) && AllFixed(rs)
    ensures CursorClear(rs, origin, a) <==> forall i :: 0 <= i < |rs| ==> !Stuck(rs, origin, a, i)
  {
    var ws := Place(rs, origin, a);
    forall i | 0 <= i < |rs| && ws[i].high >= Cursor(rs, |rs|, origin, a)
      ensures Stuck(rs, origin, a, i)
    {
      HighVsCursor(rs, origin, a, i);
      forall j | i < j < |rs| ensures ws[j].high <= ws[i].high {
        HighVsCursor(rs, origin, a, j);
      }
    }
    forall i | 0 <= i < |rs| && Stuck(rs, origin, a, i)
      ensures ws[i].high == Cursor(rs, |rs|, origin, a)
    {
      StuckStays(rs, origin, a, i, |rs|);
    }
  }

  lemma {:induction false} StuckStays(rs: seq<Request>, origin: int, a: int, i: nat, n: nat)
    requires a > 0 && i < n <= |rs| && AllFixed(rs) && Stuck(rs, origin, a, i)
    ensures Cursor(rs, n, origin, a) == Place(rs, origin, a)[i].high
    decreases n
  {
    var h := Place(rs, origin, a)[i].high;
    var met := Cursor(rs, n - 1, origin, a);
    assert met == h && PlaceOne(rs[n - 1], origin, met, a).high <= h by {
      if n > i + 1 {
        StuckStays(rs, origin, a, i, n - 1);
        assert Place(rs, origin, a)[n - 1].high <= h;
      }
    }
    assert rs[n - 1].Fixed();
  }

  /** With alignment at least 2 the strict test is harmless: a window ends one below the grid, the cursor is on
      the grid, so the two never meet. */
  lemma {:induction false} AlignmentClearsCursor(rs: seq<Request>, origin: int, a: int)
    requires a >= 2 && Sized(rs) && AllFixed(rs) && AlignedOffsets(rs, a)
    ensures CursorClear(rs, origin, a)
  {
    forall i | 0 <= i < |rs| ensures !Stuck(rs, origin, a, i) {
      CursorOnGrid(rs, i, origin, a);
      NeverOnCursor(rs[i].offset, RoundUp(rs[i].nbytes, a), Cursor(rs, i, origin, a) - origin, a);
    }
    CursorClearIffNoneStuck(rs, origin, a);
  }

  lemma {:induction false} NeverOnCursor(offset: int, span: int, cursor: int, a: int)
    requires a >= 2 && offset % a == 0 && span % a == 0 && cursor % a == 0
    ensures offset + span - 1 != cursor
  {
    if offset + span - 1 == cursor {
      MultiplesClosed(offset, span, a);
      MultiplesClosed(offset + span, cursor, a);
      ModUnique(1, a, 0, 1);
    }
  }

  /** Second pass: a window starts at the cursor it meets, at or above where the first pass left it. */
  lemma {:induction false} PackedAtCursor(rs: seq<Request>, us: seq<Request>, origin: int, a: int, k: nat)
    requires a > 0 && |rs| <= k < |rs| + |us| && Sized(rs) && Sized(us) && NoneFixed(us)
    ensures var w := Place(rs + us, origin, a)[k];
            && w.base == Cursor(rs + us, k, origin, a) >= Cursor(rs, |rs|, origin, a)
            && w.base <= w.high == Cursor(rs + us, k + 1, origin, a) - 1
  {
    assert (rs + us)[k] == us[k - |rs|];
    CursorPrefix(rs, us, |rs|, origin, a);
    CursorMonotone(rs + us, |rs|, k, origin, a);
  }

  lemma {:induction false} PackedInOrder(rs: seq<Request>, us: seq<Request>, origin: int, a: int, i: nat, j: nat)
    requires a > 0 && Sized(rs) && Sized(us) && NoneFixed(us) && |rs| <= i < j < |rs| + |us|
    ensures Place(rs + us, origin, a)[i].high < Place(rs + us, origin, a)[j].base
  {
    PackedAtCursor(rs, us, origin, a, i);
    PackedAtCursor(rs, us, origin, a, j);
    var all := rs + us;
    assert forall k :: 0 <= k < |us| ==> all[|rs| + k] == us[k];
    assert Sized(all);
    CursorMonotone(all, i + 1, j, origin, a);
  }

  /** Whatever is packed lies above everything visited before it, once the cursor is clear. */
  lemma {:induction false} PackedAboveEarlier(rs: seq<Request>, us: seq<Request>, origin: int, a: int, i: nat, j: nat)
    requires a > 0 && Sized(rs) && Sized(us) && NoneFixed(us) && CursorClear(rs, origin, a)
    requires i < j && |rs| <= j < |rs| + |us|
    ensures Place(rs + us, origin, a)[i].high < Place(rs + us, origin, a)[j].base
  {
    if i < |rs| {
      PackedAtCursor(rs, us, origin, a, j);
      FixedPart(rs, us, origin, a, i);
      assert Place(rs, origin, a)[i].high < Cursor(rs, |rs|, origin, a);
    } else {
      PackedInOrder(rs, us, origin, a, i, j);
    }
  }

  /** All windows of both passes are pairwise disjoint exactly when the requested ones are and, if anything is
      packed behind them, no requested device has left the cursor on an occupied byte. */
  lemma {:induction false} DisjointIff(rs: seq<Request>, us: seq<Request>, origin: int, a: int)
    requires a > 0 && Sized(rs) && Sized(us) && AllFixed(rs) && NoneFixed(us)
    ensures AllDisjoint(Place(rs + us, origin, a)) <==>
              AllDisjoint(Place(rs, origin, a)) &&
              (us == [] || forall i :: 0 <= i < |rs| ==> !Stuck(rs, origin, a, i))
  {
    CursorClearIffNoneStuck(rs, origin, a);
    if AllDisjoint(Place(rs, origin, a)) && (us == [] || CursorClear(rs, origin, a)) {
      ClearIsDisjoint(rs, us, origin, a);
    }
    if AllDisjoint(Place(rs + us, origin, a)) {
      DisjointIsClear(rs, us, origin, a);
    }
  }

  lemma {:induction false} ClearIsDisjoint(rs: seq<Request>, us: seq<Request>, origin: int, a: int)
    requires a > 0 && Sized(rs) && Sized(us) && NoneFixed(us)
    requires AllDisjoint(Place(rs, origin, a)) && (us == [] || CursorClear(rs, origin, a))
    ensures AllDisjoint(Place(rs + us, origin, a))
  {
    var ws := Place(rs + us, origin, a);
    forall i, j | 0 <= i < j < |ws| ensures Disjoint(ws[i], ws[j]) {
      if j >= |rs| {
        PackedAboveEarlier(rs, us, origin, a, i, j);
      } else {
        FixedPart(rs, us, origin, a, i);
        FixedPart(rs, us, origin, a, j);
        assert Disjoint(Place(rs, origin, a)[i], Place(rs, origin, a)[j]);
      }
    }
  }

  lemma {:induction false} DisjointIsClear(rs: seq<Request>, us: seq<Request>, origin: int, a: int)
    requires a > 0 && Sized(rs) && Sized(us) && NoneFixed(us)
    requires AllDisjoint(Place(rs + us, origin, a))
    ensures AllDisjoint(Place(rs, origin, a)) && (us == [] || CursorClear(rs, origin, a))
  {
    var ws := Place(rs + us, origin, a);
    var fs := Place(rs, origin, a);
    forall i, j | 0 <= i < j < |fs| ensures Disjoint(fs[i], fs[j]) {
      FixedPart(rs, us, origin, a, i);
      FixedPart(rs, us, origin, a, j);
      assert Disjoint(ws[i], ws[j]);
    }
    if us != [] {
      forall i | 0 <= i < |rs| ensures fs[i].high < Cursor(rs, |rs|, origin, a) {
        FixedPart(rs, us, origin, a, i);
        HighVsCursor(rs, origin, a, i);
        CursorPrefix(rs, us, |rs|, origin, a);
        PackedAtCursor(rs, us, origin, a, |rs|);
        assert Disjoint(ws[i], ws[|rs|]);
      }
    }
  }

  /** The allocator's promise: aligned fixed windows that do not overlap each other never overlap anything. */
  lemma {:induction false} NoOverlap(rs: seq<Request>, us: seq<Request>, origin: int, a: int)
    requires a >= 2 && Sized(rs) && Sized(us) && AllFixed(rs) && NoneFixed(us) && AlignedOffsets(rs, a)
    ensures AllDisjoint(Place(rs + us, origin, a)) <==> AllDisjoint(Place(rs, origin, a))
  {
    DisjointIff(rs, us, origin, a);
    AlignmentClearsCursor(rs, origin, a);
    CursorClearIffNoneStuck(rs, origin, a);
  }

  /** With byte alignment the strict test does fail: a one-byte device at the origin shares its byte with the
      first packed device. */
  lemma {:induction false} ByteAlignmentOverlaps()
    ensures var rs := [Request("fixed", 1, 0)];
            var us := [Request("packed", 1, -1)];
            AllDisjoint(Place(rs, 0x10000, 1)) && !AllDisjoint(Place(rs + us, 0x10000, 1))
  {
    var rs := [Request("fixed", 1, 0)];
    var us := [Request("packed", 1, -1)];
    assert Cursor(rs, 0, 0x10000, 1) == 0x10000;
    assert Place(rs, 0x10000, 1)[0] == Window(0x10000, 0x10000);
    assert Stuck(rs, 0x10000, 1, 0);
    DisjointIff(rs, us, 0x10000, 1);
  }

  /** Whatever is packed starts at or above everything visited before it, stuck or not. */
  lemma {:induction false} PackedNotBelow(rs: seq<Request>, us: seq<Request>, origin: int, a: int, i: nat, j: nat)
    requires a > 0 && Sized(rs) && Sized(us) && NoneFixed(us)
    requires i < j && |rs| <= j < |rs| + |us|
    ensures Place(rs + us, origin, a)[i].high <= Place(rs + us, origin, a)[j].base
  {
    if i < |rs| {
      PackedAtCursor(rs, us, origin, a, j);
      FixedPart(rs, us, origin, a, i);
      HighVsCursor(rs, origin, a, i);
    } else {
      PackedInOrder(rs, us, origin, a, i, j);
    }
  }

  /** Visit order is address order exactly when the requested offsets rise in visit order, for every alignment and
      whether or not the requests are aligned or overlap. */
  lemma {:induction false} AscendingIff(rs: seq<Request>, us: seq<Request>, origin: int, a: int)
    requires a > 0 && Sized(rs) && Sized(us) && AllFixed(rs) && NoneFixed(us)
    ensures NonEmpty(Place(rs + us, origin, a))
    ensures Ascending(Place(rs + us, origin, a)) <==> AscendingOffsets(rs)
  {
    var ws := Place(rs + us, origin, a);
    forall i, j | 0 <= i < j < |ws| && |rs| <= j ensures ws[i].base <= ws[j].base {
      PackedNotBelow(rs, us, origin, a, i, j);
    }
    forall k | 0 <= k < |rs| ensures ws[k].base == origin + rs[k].offset {
      FixedPart(rs, us, origin, a, k);
    }
    if Ascending(ws) {
      forall i, j | 0 <= i < j < |rs| ensures rs[i].offset <= rs[j].offset {
        assert ws[i].base <= ws[j].base;
      }
    }
  }

  // ---------------------------------------------------------------------------------------------------------
  // What each device is given
  // ---------------------------------------------------------------------------------------------------------

  /** p is where the first n windows end: no byte of theirs lies above p, which is the origin or follows one of them; a
      window that ends on p itself was visited when p had already been reached. */
  ghost predicate EndsAt(ws: seq<Window>, n: nat, origin: int, p: int)
    requires n <= |ws|
  {
    && origin <= p
    && (p == origin || Follows(ws, n, p))
    && (forall i :: 0 <= i < n ==> ws[i].high <= p)
    && (forall i :: 0 <= i < n && ws[i].high == p ==> p == origin || Follows(ws, i, p))
  }

  /** One of the first n windows ends right before p. */
  ghost predicate Follows(ws: seq<Window>, n: nat, p: int)
    requires n <= |ws|
  {
    exists i :: 0 <= i < n && ws[i].high == p - 1
  }

  /** Requested devices start at their offset and packed ones behind each other, the first where the requested windows
      end; every window is the least multiple of the alignment that holds its device. */
  ghost predicate Granted(rs: seq<Request>, us: seq<Request>, ws: seq<Window>, origin: int, a: int)
    requires a > 0
  {
    && |ws| == |rs| + |us|
    && (forall k :: 0 <= k < |rs| ==> ws[k].base == origin + rs[k].offset)
    && (forall k :: 0 <= k < |ws| ==> LeastMultiple(ws[k].high + 1 - ws[k].base, (rs + us)[k].nbytes, a))
    && (forall k :: |rs| < k < |ws| ==> ws[k].base == ws[k - 1].high + 1)
    && (us != [] ==> EndsAt(ws, |rs|, origin, ws[|rs|].base))
  }

  /** A cursor that starts at the origin and is moved on by each window that ends above it. */
  ghost predicate Moves(cs: seq<int>, ws: seq<Window>, n: nat, origin: int)
    requires n < |cs| && n <= |ws|
  {
    && cs[0] == origin
    && forall i :: 0 <= i < n ==> cs[i + 1] == if ws[i].high <= cs[i] then cs[i] else ws[i].high + 1
  }

  lemma {:induction false} MovesToEnd(cs: seq<int>, ws: seq<Window>, n: nat, origin: int)
    requires n < |cs| && n <= |ws| && Moves(cs, ws, n, origin)
    ensures EndsAt(ws, n, origin, cs[n])
  {
    if n > 0 {
      MovesToEnd(cs, ws, n - 1, origin);
      assert cs[n] == if ws[n - 1].high <= cs[n - 1] then cs[n - 1] else ws[n - 1].high + 1;
    }
  }

  lemma {:induction false} FixedBump(rs: seq<Request>, origin: int, a: int, n: nat)
    requires a > 0 && n < |rs| && rs[n].Fixed()
    ensures var high, cursor := Place(rs, origin, a)[n].high, Cursor(rs, n, origin, a);
            Cursor(rs, n + 1, origin, a) == if high <= cursor then cursor else high + 1
  {
  }

  ghost function Cursors(rs: seq<Request>, n: nat, origin: int, a: int): (cs: seq<int>)
    requires a > 0 && n <= |rs|
    ensures |cs| == n + 1 && forall i :: 0 <= i <= n ==> cs[i] == Cursor(rs, i, origin, a)
  {
    seq(n + 1, i requires 0 <= i <= n => Cursor(rs, i, origin, a))
  }

  lemma {:induction false} CursorMoves(rs: seq<Request>, ws: seq<Window>, cs: seq<int>, origin: int, a: int, n: nat)
    requires a > 0 && n <= |rs| && forall i :: 0 <= i < n ==> rs[i].Fixed()
    requires ws == Place(rs, origin, a) && cs == Cursors(rs, n, origin, a)
    ensures Moves(cs, ws, n, origin)
  {
    forall i | 0 <= i < n ensures cs[i + 1] == if ws[i].high <= cs[i] then cs[i] else ws[i].high + 1 {
      FixedBump(rs, origin, a, i);
    }
    assert Cursor(rs, 0, origin, a) == origin;
  }

  /** The cursor stands where the requested windows end. */
  lemma {:induction false} CursorEnds(rs: seq<Request>, ws: seq<Window>, origin: int, a: int, n: nat)
    requires a > 0 && n <= |rs| && (forall i :: 0 <= i < n ==> rs[i].Fixed()) && ws == Place(rs, origin, a)
    ensures EndsAt(ws, n, origin, Cursor(rs, n, origin, a))
  {
    var cs := Cursors(rs, n, origin, a);
    CursorMoves(rs, ws, cs, origin, a, n);
    MovesToEnd(cs, ws, n, origin);
  }

  lemma {:induction false} SpansLeast(rs: seq<Request>, origin: int, a: int, k: nat)
    requires a > 0 && k < |rs|
    ensures var w := Place(rs, origin, a)[k]; LeastMultiple(w.high + 1 - w.base, rs[k].nbytes, a)
  {
    RoundUpLeast(rs[k].nbytes, a);
    var w := Place(rs, origin, a)[k];
    assert w.high + 1 - w.base == RoundUp(rs[k].nbytes, a);
  }

  lemma {:induction false} PackedFollows(rs: seq<Request>, us: seq<Request>, origin: int, a: int, k: nat)
    requires a > 0 && NoneFixed(us) && |rs| < k < |rs| + |us|
    ensures Place(rs + us, origin, a)[k].base == Place(rs + us, origin, a)[k - 1].high + 1
  {
    assert (rs + us)[k] == us[k - |rs|] && (rs + us)[k - 1] == us[k - 1 - |rs|];
  }

  lemma {:induction false} FirstPacked(rs: seq<Request>, us: seq<Request>, origin: int, a: int)
    requires a > 0 && AllFixed(rs) && NoneFixed(us) && us != []
    ensures var ws := Place(rs + us, origin, a); EndsAt(ws, |rs|, origin, ws[|rs|].base)
  {
    var all := rs + us;
    assert all[|rs|] == us[0] && forall k :: 0 <= k < |rs| ==> all[k] == rs[k];
    CursorEnds(all, Place(all, origin, a), origin, a, |rs|);
  }

  lemma {:induction false} RequestedAt(rs: seq<Request>, us: seq<Request>, origin: int, a: int, k: nat)
    requires a > 0 && AllFixed(rs) && k < |rs|
    ensures Place(rs + us, origin, a)[k].base == origin + rs[k].offset
  {
    assert (rs + us)[k] == rs[k];
  }

  /** The rules grant every request. */
  lemma {:induction false} PlaceGrants(rs: seq<Request>, us: seq<Request>, ws: seq<Window>, origin: int, a: int)
    requires a > 0 && AllFixed(rs) && NoneFixed(us) && ws == Place(rs + us, origin, a)
    ensures Granted(rs, us, ws, origin, a)
  {
    forall k | 0 <= k < |rs| ensures ws[k].base == origin + rs[k].offset {
      RequestedAt(rs, us, origin, a, k);
    }
    forall k | 0 <= k < |ws| ensures LeastMultiple(ws[k].high + 1 - ws[k].base, (rs + us)[k].nbytes, a) {
      SpansLeast(rs + us, origin, a, k);
    }
    forall k | |rs| < k < |ws| ensures ws[k].base == ws[k - 1].high + 1 {
      PackedFollows(rs, us, origin, a, k);
    }
    if us != [] {
      FirstPacked(rs, us, origin, a);
    }
  }

  /** With aligned requests and an alignment of at least 2, everything requested ends below where packing starts. */
  lemma {:induction false} GrantedBelow(rs: seq<Request>, us: seq<Request>, ws: seq<Window>, origin: int, a: int, i: nat)
    requires a >= 2 && Granted(rs, us, ws, origin, a) && AlignedOffsets(rs, a) && us != [] && i < |rs|
    ensures ws[i].high < ws[|rs|].base
  {
    var p := ws[|rs|].base;
    var span := ws[i].high + 1 - ws[i].base;
    assert (p - origin) % a == 0 by {
      if p == origin {
        ModOfMultiple(0, a);
      } else {
        var j :| 0 <= j < |rs| && ws[j].high == p - 1;
        assert (rs + us)[j] == rs[j];
        MultiplesClosed(rs[j].offset, ws[j].high + 1 - ws[j].base, a);
      }
    }
    NeverOnCursor(rs[i].offset, span, p - origin, a);
  }
}

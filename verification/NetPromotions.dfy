/** What instantiating child ports leaves in the parent, and when it goes through, in terms of the child ports alone. */
module NetPromotions {

  import opened WriteOnce
  import opened Netlist
  import opened NetRuns
  import opened Wrappers

  // ---------------------------------------------------------------------------------------------------------
  // The promises
  // ---------------------------------------------------------------------------------------------------------

  /** The port wants a port or a signal of the parent. */
  ghost predicate Asks(p: ChildPort, k: Kind) {
    if k.Ports? then p.parentPort else p.parentSig
  }

  /** Port j of block i. */
  ghost predicate Within(bs: seq<Block>, i: int, j: int) {
    0 <= i < |bs| && 0 <= j < |bs[i].ports|
  }

  /** Port j of block i asks for the name. */
  ghost predicate AsksFor(bs: seq<Block>, i: int, j: int, k: Kind, n: string) {
    Within(bs, i, j) && Asks(bs[i].ports[j], k) && Strip(bs[i].ports[j].signal) == n
  }

  ghost predicate Earlier(i: int, j: int, i': int, j': int) {
    i < i' || (i == i' && j < j')
  }

  /** The value is stored, unless it is None. */
  ghost predicate Holds(a: Attrs, x: string, v: Value) {
    v != Nil ==> Get(a, x) == v
  }

  /** The parent has the port's signal, with its width. */
  ghost predicate SignalPromoted(t: State, p: ChildPort) {
    var a := Record(t.signals, Strip(p.signal));
    Known(t.signals, Strip(p.signal)) && NameOf(Get(a, "name"), p.signal) && Holds(a, "width", p.width)
  }

  /** The parent has a port for the signal, with the port's width and direction, that asks for nothing itself. */
  ghost predicate OutwardPromoted(t: State, p: ChildPort) {
    var a := Record(t.ports, Strip(p.signal));
    && p.dir.Some? && Known(t.ports, Strip(p.signal)) && NameOf(Get(a, "name"), p.signal)
    && Holds(a, "width", p.width) && Holds(a, "dir", p.dir.value)
    && Get(a, "parent_sig") == Num(0) && Get(a, "parent_port") == Num(0) && Get(a, "signal") == Nil
  }

  /** The parent has what the port asks for. */
  ghost predicate Promoted(t: State, p: ChildPort) {
    (p.parentSig ==> SignalPromoted(t, p)) && (p.parentPort ==> OutwardPromoted(t, p))
  }

  /** What the port supplies for an attribute of the name it asks for. */
  ghost predicate Supplies(p: ChildPort, k: Kind, x: string, v: Value) {
    || (x == "name" && NameOf(v, p.signal))
    || (x == "width" && v == p.width)
    || (k.Ports? && (x == "parent_sig" || x == "parent_port") && v == Num(0))
    || (k.Ports? && x == "dir" && p.dir == Some(v))
  }

  /** An attribute that has a value had it before, or has it from a port that asks for the name. */
  ghost predicate Sourced(s: State, t: State, bs: seq<Block>, k: Kind, n: string, x: string) {
    var v := Get(Record(t.Of(k), n), x);
    if Get(Record(s.Of(k), n), x) != Nil then v == Get(Record(s.Of(k), n), x)
    else v != Nil ==> exists i, j :: AsksFor(bs, i, j, k, n) && Supplies(bs[i].ports[j], k, x, v)
  }

  /** The name is in the parent as it was before. */
  ghost predicate Alike(d: Dict, d': Dict, n: string) {
    Record(d', n) == Record(d, n) && forall b :: Lives(d', b, n) <==> Lives(d, b, n)
  }

  /** Port j of block i is the first one that asks for the name. */
  ghost predicate FirstToAsk(bs: seq<Block>, i: int, j: int, k: Kind, n: string) {
    AsksFor(bs, i, j, k, n) && forall i', j' :: AsksFor(bs, i', j', k, n) ==> !Earlier(i', j', i, j)
  }

  /** The parent t after the child ports of bs have been instantiated in s: all wishes are met, names nobody asks for are as
      they were, every value has a source, and a new name lives in the block that was first to ask for it. */
  ghost predicate Instantiated(s: State, bs: seq<Block>, t: State) {
    && (forall i, j :: Within(bs, i, j) ==> Promoted(t, bs[i].ports[j]))
    && (forall k, n :: (forall i, j :: !AsksFor(bs, i, j, k, n)) ==> Alike(s.Of(k), t.Of(k), n))
    && (forall k, n, x :: Sourced(s, t, bs, k, n, x))
    && (forall k, n, i, j :: FirstToAsk(bs, i, j, k, n) && !Known(s.Of(k), n) ==> Lives(t.Of(k), bs[i].name, n))
  }

  /** A stored value that does not stand in the way of v. */
  ghost predicate Fits(a: Attrs, x: string, v: Value) {
    Get(a, x) == Nil || Get(a, x) == v
  }

  /** What the parent has stored does not stand in the way of the port's wish. */
  ghost predicate Agrees(a: Attrs, p: ChildPort, k: Kind) {
    && Fits(a, "name", Text(Strip(p.signal))) && Fits(a, "width", p.width)
    && (k.Ports? ==>
          && Fits(a, "parent_sig", Num(0)) && Fits(a, "parent_port", Num(0)) && Fits(a, "signal", Nil)
          && (p.dir.Some? ==> Fits(a, "dir", p.dir.value)))
  }

  /** A later port q may ask for the same name as p. */
  ghost predicate CanFollow(p: ChildPort, q: ChildPort, k: Kind) {
    && (p.width == Nil || p.width == q.width)
    && (k.Ports? && p.dir.Some? && q.dir.Some? ==> p.dir.value == Nil || p.dir.value == q.dir.value)
  }

  /** Ports to be promoted have been declared with a direction, and no wish meets another value, neither in the parent nor
      from an earlier port. */
  ghost predicate Completes(s: State, bs: seq<Block>) {
    && (forall i, j :: Within(bs, i, j) && bs[i].ports[j].parentPort ==> bs[i].ports[j].dir.Some?)
    && (forall i, j, k :: Within(bs, i, j) && Asks(bs[i].ports[j], k) ==>
          Agrees(Record(s.Of(k), Strip(bs[i].ports[j].signal)), bs[i].ports[j], k))
    && (forall i, j, i', j', k, n :: AsksFor(bs, i, j, k, n) && AsksFor(bs, i', j', k, n) && Earlier(i, j, i', j') ==>
          CanFollow(bs[i].ports[j], bs[i'].ports[j'], k))
  }

  // ---------------------------------------------------------------------------------------------------------
  // Calls and where they come from
  // ---------------------------------------------------------------------------------------------------------

  /** Step 0 enters the block; step j + 1 deals with port j, its signal first and its port then. */
  datatype Origin = Origin(block: nat, step: nat, kind: Kind)

  ghost predicate In(bs: seq<Block>, o: Origin) {
    && o.block < |bs|
    && (if o.step == 0 then o.kind == Signals
        else o.step <= |bs[o.block].ports| && Asks(bs[o.block].ports[o.step - 1], o.kind))
  }

  ghost function CallOf(p: ChildPort, k: Kind): Call {
    if k.Signals? then Call.AddSignal(p.signal, p.width, [])
    else if p.dir.None? then MissingAttribute
    else Call.AddPort(p.signal, Nil, false, true, p.width, [Write("dir", p.dir.value)])
  }

  ghost function CallAt(bs: seq<Block>, o: Origin): Call
    requires In(bs, o)
  {
    if o.step == 0 then Call.SetCurBlk(bs[o.block].name) else CallOf(bs[o.block].ports[o.step - 1], o.kind)
  }

  ghost predicate Precedes(o: Origin, q: Origin) {
    || o.block < q.block
    || (o.block == q.block && (o.step < q.step || (o.step == q.step && o.kind.Signals? && q.kind.Ports?)))
  }

  /** The calls made along the origins os, which rise. */
  ghost predicate Trace(cs: seq<Call>, bs: seq<Block>, os: seq<Origin>) {
    && |os| == |cs|
    && (forall k :: 0 <= k < |os| ==> In(bs, os[k]) && cs[k] == CallAt(bs, os[k]))
    && (forall k, l :: 0 <= k < l < |os| ==> Precedes(os[k], os[l]))
  }

  /** All calls that come before a point. */
  ghost predicate TraceTo(cs: seq<Call>, bs: seq<Block>, os: seq<Origin>, end: Origin) {
    Trace(cs, bs, os) && forall o :: o in os <==> In(bs, o) && Precedes(o, end)
  }

  lemma {:induction false} TraceNext(cs: seq<Call>, bs: seq<Block>, os: seq<Origin>, o: Origin, end: Origin)
    requires TraceTo(cs, bs, os, o) && In(bs, o)
    requires forall q :: In(bs, q) ==> (Precedes(q, end) <==> Precedes(q, o) || q == o)
    ensures TraceTo(cs + [CallAt(bs, o)], bs, os + [o], end)
  {
    forall k | 0 <= k < |os| ensures Precedes(os[k], o) {
      assert os[k] in os;
    }
  }

  /** Nothing is called at o. */
  lemma {:induction false} TraceSkip(cs: seq<Call>, bs: seq<Block>, os: seq<Origin>, o: Origin, end: Origin)
    requires TraceTo(cs, bs, os, o)
    requires forall q :: In(bs, q) ==> (Precedes(q, end) <==> Precedes(q, o))
    ensures TraceTo(cs, bs, os, end)
  {
  }

  /** One more port. */
  lemma {:induction false} TracePort(cs: seq<Call>, bs: seq<Block>, os: seq<Origin>, b: nat, j: nat)
      returns (qs: seq<Origin>)
    requires Within(bs, b, j) && TraceTo(cs, bs, os, Origin(b, j + 1, Signals))
    ensures TraceTo(cs + ChildCalls(bs[b].ports[j]), bs, qs, Origin(b, j + 2, Signals))
  {
    var p := bs[b].ports[j];
    var here, next, end := Origin(b, j + 1, Signals), Origin(b, j + 1, Ports), Origin(b, j + 2, Signals);
    var ds := cs + (if p.parentSig then [SignalCall(p)] else []);
    qs := os;
    if p.parentSig {
      TraceNext(cs, bs, os, here, next);
      qs := os + [here];
    } else {
      assert ds == cs;
      TraceSkip(cs, bs, os, here, next);
    }
    if p.parentPort {
      TraceNext(ds, bs, qs, next, end);
      qs := qs + [next];
      assert cs + ChildCalls(p) == ds + [PortCall(p)];
    } else {
      assert cs + ChildCalls(p) == ds;
      TraceSkip(ds, bs, qs, next, end);
    }
  }

  /** The calls of a block up to port j, behind others. */
  ghost function UpTo(cs: seq<Call>, b: Block, j: nat): seq<Call>
    requires j <= |b.ports|
  {
    cs + [Call.SetCurBlk(b.name)] + PortsCalls(b.ports, j)
  }

  lemma {:induction false} UpToNext(cs: seq<Call>, b: Block, j: nat)
    requires j < |b.ports|
    ensures UpTo(cs, b, j + 1) == UpTo(cs, b, j) + ChildCalls(b.ports[j])
    ensures UpTo(cs, b, 0) == cs + [Call.SetCurBlk(b.name)]
  {
  }

  lemma {:induction false} UpToEnd(cs: seq<Call>, b: Block)
    ensures UpTo(cs, b, |b.ports|) == cs + BlockCalls(b) && UpTo(cs, b, 0) == cs + [Call.SetCurBlk(b.name)]
  {
  }

  /** One more block. */
  lemma {:induction false} TraceBlock(cs: seq<Call>, bs: seq<Block>, os: seq<Origin>, b: nat) returns (qs: seq<Origin>)
    requires b < |bs| && TraceTo(cs, bs, os, Origin(b, 0, Signals))
    ensures TraceTo(cs + BlockCalls(bs[b]), bs, qs, Origin(b + 1, 0, Signals))
  {
    UpToEnd(cs, bs[b]);
    TraceNext(cs, bs, os, Origin(b, 0, Signals), Origin(b, 1, Signals));
    qs := os + [Origin(b, 0, Signals)];
    for j := 0 to |bs[b].ports|
      invariant TraceTo(UpTo(cs, bs[b], j), bs, qs, Origin(b, j + 1, Signals))
    {
      UpToNext(cs, bs[b], j);
      qs := TracePort(UpTo(cs, bs[b], j), bs, qs, b, j);
    }
    TraceSkip(cs + BlockCalls(bs[b]), bs, qs, Origin(b, |bs[b].ports| + 1, Signals), Origin(b + 1, 0, Signals));
  }

  lemma {:induction false} TraceAll(bs: seq<Block>, n: nat) returns (os: seq<Origin>)
    requires n <= |bs|
    ensures TraceTo(BlocksCalls(bs, n), bs, os, Origin(n, 0, Signals))
  {
    os := [];
    for b := 0 to n
      invariant TraceTo(BlocksCalls(bs, b), bs, os, Origin(b, 0, Signals))
    {
      os := TraceBlock(BlocksCalls(bs, b), bs, os, b);
    }
  }

  // ---------------------------------------------------------------------------------------------------------
  // Along the run
  // ---------------------------------------------------------------------------------------------------------

  lemma {:induction false} StepElsewhere(s: State, c: Call, k: Kind, n: string)
    requires Wf(s) && Promotion(c) && !Targets(c, k, n)
    ensures Alike(s.Of(k), Step(s, c).state.Of(k), n)
  {
    match c
    case SetCurBlk(b) =>
      if b !in s.ports {
        EnterEffect(s.Of(k), b);
      }
    case AddPort(_, _, _, _, _, _) =>
      PutEffect(s.ports, s.cur, Strip(c.name), PortWrites(c), PortWrites(c));
    case AddSignal(_, _, _) =>
      PutEffect(s.signals, s.cur, Strip(c.name), SignalWrites(NoSignalKeyword(c)), SignalWrites(c));
    case MissingAttribute =>
  }

  lemma {:induction false} RunElsewhere(s: State, cs: seq<Call>, m: nat, k: Kind, n: string)
    requires Wf(s) && Promotions(cs) && m <= |cs| && forall i :: 0 <= i < m ==> !Targets(cs[i], k, n)
    ensures Alike(s.Of(k), RunTo(s, cs, m).state.Of(k), n)
  {
    if m > 0 {
      RunElsewhere(s, cs, m - 1, k, n);
      RunToWf(s, cs, m - 1);
      StepElsewhere(RunTo(s, cs, m - 1).state, cs[m - 1], k, n);
    }
  }

  /** What a call wrote is there as long as the run goes through. */
  lemma {:induction false} WrittenBy(s: State, cs: seq<Call>, m: nat, i: nat, x: string, v: Value)
    requires Wf(s) && Promotions(cs) && i < m <= |cs| && RunTo(s, cs, m).ok
    requires Adds(cs[i]) && Puts(cs[i], x, v) && v != Nil
    ensures Get(Target(RunTo(s, cs, m).state, cs[i]), x) == v
  {
    var c := cs[i];
    var k, name := KindOf(c), Strip(c.name);
    PrefixOk(s, cs, i + 1, m);
    RunToWf(s, cs, i);
    SettledRightAfter(RunTo(s, cs, i).state, c);
    RunToKeeps(s, cs, i + 1, m, k);
    assert Extends(Record(RunTo(s, cs, i + 1).state.Of(k), name), Record(RunTo(s, cs, m).state.Of(k), name));
  }

  /** The writes of c find nothing else stored in s. */
  ghost predicate CallFits(s: State, c: Call) {
    && !c.MissingAttribute?
    && (Adds(c) ==> forall x, v :: Puts(c, x, v) ==> Fits(Target(s, c), x, v))
  }

  /** The writes of c may come before those of d. */
  ghost predicate CallFollows(c: Call, d: Call) {
    Adds(c) && Adds(d) && KindOf(c) == KindOf(d) && Strip(c.name) == Strip(d.name) ==>
      forall x, u, v :: Puts(c, x, u) && Puts(d, x, v) ==> u == Nil || u == v
  }

  lemma {:induction false} PlainOkIff(a: Attrs, ws: seq<Write>)
    requires Plain(ws)
    ensures SetAll(a, ws).ok <==> forall i :: 0 <= i < |ws| ==> Fits(a, ws[i].attr, ws[i].value)
  {
    WritesSucceedIff(a, ws, |ws|);
    assert forall i :: 0 <= i < |ws| ==> (Allows(ws[i].attr, Get(a, ws[i].attr), ws[i].value) <==>
                                          Fits(a, ws[i].attr, ws[i].value));
  }

  lemma {:induction false} StepOkIff(s: State, c: Call)
    requires Wf(s) && Promotion(c)
    ensures Step(s, c).ok <==> CallFits(s, c)
  {
    if Adds(c) {
      PromotionWrites(s, c);
      PlainWrites(c);
      PlainOkIff(Target(s, c), Writes(c));
      forall i | 0 <= i < |Writes(c)| ensures Puts(c, Writes(c)[i].attr, Writes(c)[i].value) {
      }
    }
  }

  /** A value fits what the run has left exactly if it fits what was there before and what the calls have written. */
  lemma {:induction false} FitsIff(s: State, cs: seq<Call>, m: nat, c: Call, x: string, v: Value)
    requires Wf(s) && Promotions(cs) && m <= |cs| && RunTo(s, cs, m).ok && Promotion(c) && Adds(c)
    ensures Fits(Target(RunTo(s, cs, m).state, c), x, v) <==>
              && Fits(Target(s, c), x, v)
              && forall i, u :: 0 <= i < m && Targets(cs[i], KindOf(c), Strip(c.name)) && Puts(cs[i], x, u) ==>
                   u == Nil || u == v
  {
    var k, name := KindOf(c), Strip(c.name);
    var before, now := Get(Target(s, c), x), Get(Target(RunTo(s, cs, m).state, c), x);
    RunToKeeps(s, cs, 0, m, k);
    assert Extends(Record(s.Of(k), name), Record(RunTo(s, cs, m).state.Of(k), name));
    assert before != Nil ==> now == before;
    forall i, u | 0 <= i < m && Targets(cs[i], k, name) && Puts(cs[i], x, u) && u != Nil ensures now == u {
      WrittenBy(s, cs, m, i, x, u);
    }
    if before == Nil && now != Nil {
      var i := RunOrigin(s, cs, 0, m, k, name, x);
    }
  }

  /** The calls fit what was there, and each follows the earlier ones, up to call m. */
  ghost predicate CallsFit(s: State, cs: seq<Call>, m: nat)
    requires m <= |cs|
  {
    && (forall i :: 0 <= i < m ==> CallFits(s, cs[i]))
    && (forall i, j :: 0 <= i < j < m ==> CallFollows(cs[i], cs[j]))
  }

  lemma {:induction false} NextFits(s: State, cs: seq<Call>, m: nat)
    requires Wf(s) && Promotions(cs) && m < |cs| && RunTo(s, cs, m).ok
    ensures CallFits(RunTo(s, cs, m).state, cs[m]) <==>
              CallFits(s, cs[m]) && forall i :: 0 <= i < m ==> CallFollows(cs[i], cs[m])
  {
    var c := cs[m];
    if Adds(c) {
      forall x, v ensures Fits(Target(RunTo(s, cs, m).state, c), x, v) <==>
              && Fits(Target(s, c), x, v)
              && forall i, u :: 0 <= i < m && Targets(cs[i], KindOf(c), Strip(c.name)) && Puts(cs[i], x, u) ==>
                   u == Nil || u == v
      {
        FitsIff(s, cs, m, c, x, v);
      }
      forall i | 0 <= i < m
        ensures Targets(cs[i], KindOf(c), Strip(c.name)) <==>
                Adds(cs[i]) && KindOf(cs[i]) == KindOf(c) && Strip(cs[i].name) == Strip(c.name)
      {
      }
    }
  }

  /** A run of promotions goes through exactly if every call fits and follows. */
  lemma {:induction false} RunOkIff(s: State, cs: seq<Call>, m: nat)
    requires Wf(s) && Promotions(cs) && m <= |cs|
    ensures RunTo(s, cs, m).ok <==> CallsFit(s, cs, m)
  {
    if m > 0 {
      RunOkIff(s, cs, m - 1);
      if RunTo(s, cs, m - 1).ok {
        RunToWf(s, cs, m - 1);
        StepOkIff(RunTo(s, cs, m - 1).state, cs[m - 1]);
        NextFits(s, cs, m - 1);
      }
    }
  }

  // ---------------------------------------------------------------------------------------------------------
  // When the instantiation goes through
  // ---------------------------------------------------------------------------------------------------------

  /** What a port writes for one of its wishes. */
  ghost predicate Wishes(p: ChildPort, k: Kind, x: string, v: Value) {
    || (x == "name" && v == Text(Strip(p.signal)))
    || (x == "width" && v == p.width)
    || (k.Ports? && ((x == "parent_sig" || x == "parent_port") && v == Num(0)))
    || (k.Ports? && ((x == "signal" && v == Nil) || (x == "dir" && p.dir == Some(v))))
  }

  lemma {:induction false} PutsIff(p: ChildPort, k: Kind, x: string, v: Value)
    requires k.Ports? ==> p.dir.Some?
    ensures Puts(CallOf(p, k), x, v) <==> Wishes(p, k, x, v)
  {
    var c := CallOf(p, k);
    var ws := Writes(c);
    assert ws[0] == Write("name", Text(Strip(p.signal)));
    if k.Ports? {
      assert |ws| == 6 && ws[1] == Write("parent_sig", Num(0)) && ws[2] == Write("parent_port", Num(0));
      assert ws[3] == Write("width", p.width) && ws[4] == Write("signal", Nil) && ws[5] == Write("dir", p.dir.value);
    } else {
      assert |ws| == 2 && ws[1] == Write("width", p.width);
    }
  }

  lemma {:induction false} FitsWishes(s: State, p: ChildPort, k: Kind)
    requires k.Ports? ==> p.dir.Some?
    ensures CallFits(s, CallOf(p, k)) <==> Agrees(Record(s.Of(k), Strip(p.signal)), p, k)
  {
    var c, a := CallOf(p, k), Record(s.Of(k), Strip(p.signal));
    assert Target(s, c) == a;
    forall x, v ensures Puts(c, x, v) <==> Wishes(p, k, x, v) {
      PutsIff(p, k, x, v);
    }
    if CallFits(s, c) {
      assert Wishes(p, k, "name", Text(Strip(p.signal))) && Wishes(p, k, "width", p.width);
      if k.Ports? {
        assert Wishes(p, k, "parent_sig", Num(0)) && Wishes(p, k, "parent_port", Num(0)) && Wishes(p, k, "signal", Nil);
        assert Wishes(p, k, "dir", p.dir.value);
      }
    }
  }

  lemma {:induction false} FollowsWishes(p: ChildPort, q: ChildPort, k: Kind)
    requires Strip(p.signal) == Strip(q.signal) && (k.Ports? ==> p.dir.Some? && q.dir.Some?)
    ensures CallFollows(CallOf(p, k), CallOf(q, k)) <==> CanFollow(p, q, k)
  {
    var c, d := CallOf(p, k), CallOf(q, k);
    forall x, v ensures (Puts(c, x, v) <==> Wishes(p, k, x, v)) && (Puts(d, x, v) <==> Wishes(q, k, x, v)) {
      PutsIff(p, k, x, v);
      PutsIff(q, k, x, v);
    }
    if CallFollows(c, d) {
      assert Wishes(p, k, "width", p.width) && Wishes(q, k, "width", q.width);
      if k.Ports? {
        assert Wishes(p, k, "dir", p.dir.value) && Wishes(q, k, "dir", q.dir.value);
      }
    }
  }

  lemma {:induction false} Reached(cs: seq<Call>, bs: seq<Block>, os: seq<Origin>, i: int, j: int, k: Kind) returns (r: nat)
    requires TraceTo(cs, bs, os, Origin(|bs|, 0, Signals)) && Within(bs, i, j) && Asks(bs[i].ports[j], k)
    ensures r < |cs| && os[r] == Origin(i, j + 1, k) && cs[r] == CallOf(bs[i].ports[j], k)
  {
    assert Origin(i, j + 1, k) in os;
    r :| 0 <= r < |os| && os[r] == Origin(i, j + 1, k);
  }

  lemma {:induction false} InTraceOrder(cs: seq<Call>, bs: seq<Block>, os: seq<Origin>, r: nat, q: nat)
    requires Trace(cs, bs, os) && r < |os| && q < |os| && Precedes(os[r], os[q])
    ensures r < q
  {
    assert r > q ==> Precedes(os[q], os[r]);
  }

  lemma {:induction false} FitIsComplete(s: State, bs: seq<Block>, cs: seq<Call>, os: seq<Origin>)
    requires TraceTo(cs, bs, os, Origin(|bs|, 0, Signals)) && CallsFit(s, cs, |cs|)
    ensures Completes(s, bs)
  {
    forall i, j | Within(bs, i, j) && bs[i].ports[j].parentPort ensures bs[i].ports[j].dir.Some? {
      var r := Reached(cs, bs, os, i, j, Ports);
      assert CallFits(s, cs[r]);
    }
    forall i, j, k | Within(bs, i, j) && Asks(bs[i].ports[j], k)
      ensures Agrees(Record(s.Of(k), Strip(bs[i].ports[j].signal)), bs[i].ports[j], k)
    {
      var r := Reached(cs, bs, os, i, j, k);
      FitsWishes(s, bs[i].ports[j], k);
    }
    forall i, j, i', j', k, n | AsksFor(bs, i, j, k, n) && AsksFor(bs, i', j', k, n) && Earlier(i, j, i', j')
      ensures CanFollow(bs[i].ports[j], bs[i'].ports[j'], k)
    {
      var r := Reached(cs, bs, os, i, j, k);
      var q := Reached(cs, bs, os, i', j', k);
      InTraceOrder(cs, bs, os, r, q);
      FollowsWishes(bs[i].ports[j], bs[i'].ports[j'], k);
    }
  }

  lemma {:induction false} CompleteFits(s: State, bs: seq<Block>, o: Origin)
    requires Completes(s, bs) && In(bs, o)
    ensures CallFits(s, CallAt(bs, o))
  {
    if o.step > 0 {
      assert Within(bs, o.block, o.step - 1);
      FitsWishes(s, bs[o.block].ports[o.step - 1], o.kind);
    }
  }

  /** Two calls for one name come from two ports that ask for it, in order. */
  lemma {:induction false} AskersInOrder(bs: seq<Block>, o: Origin, q: Origin)
    requires In(bs, o) && In(bs, q) && Precedes(o, q) && Adds(CallAt(bs, o)) && Adds(CallAt(bs, q))
    requires KindOf(CallAt(bs, o)) == KindOf(CallAt(bs, q)) && Strip(CallAt(bs, o).name) == Strip(CallAt(bs, q).name)
    ensures o.step > 0 && q.step > 0 && o.kind == q.kind && Earlier(o.block, o.step - 1, q.block, q.step - 1)
    ensures AsksFor(bs, o.block, o.step - 1, o.kind, Strip(CallAt(bs, o).name))
    ensures AsksFor(bs, q.block, q.step - 1, o.kind, Strip(CallAt(bs, o).name))
  {
  }

  lemma {:induction false} CompleteFollows(s: State, bs: seq<Block>, o: Origin, q: Origin)
    requires Completes(s, bs) && In(bs, o) && In(bs, q) && Precedes(o, q)
    ensures CallFollows(CallAt(bs, o), CallAt(bs, q))
  {
    var c, d := CallAt(bs, o), CallAt(bs, q);
    if Adds(c) && Adds(d) && KindOf(c) == KindOf(d) && Strip(c.name) == Strip(d.name) {
      AskersInOrder(bs, o, q);
      FollowsWishes(bs[o.block].ports[o.step - 1], bs[q.block].ports[q.step - 1], o.kind);
    }
  }

  /** Instantiating the child ports goes through exactly if every port to be promoted has a direction and no wish meets
      another value, in the parent or from an earlier port. */
  lemma {:induction false} CompletesIff(s: State, bs: seq<Block>)
    requires Wf(s)
    ensures Run(s, BlocksCalls(bs, |bs|)).ok <==> Completes(s, bs)
  {
    var cs := BlocksCalls(bs, |bs|);
    var os := TraceAll(bs, |bs|);
    BlocksPromote(bs, |bs|);
    RunOkIff(s, cs, |cs|);
    if CallsFit(s, cs, |cs|) {
      FitIsComplete(s, bs, cs, os);
    }
    if Completes(s, bs) {
      forall i | 0 <= i < |cs| ensures CallFits(s, cs[i]) {
        CompleteFits(s, bs, os[i]);
      }
      forall i, j | 0 <= i < j < |cs| ensures CallFollows(cs[i], cs[j]) {
        CompleteFollows(s, bs, os[i], os[j]);
      }
    }
  }

  // ---------------------------------------------------------------------------------------------------------
  // What it leaves
  // ---------------------------------------------------------------------------------------------------------

  /** The target of a call right after a run, attribute by attribute. */
  lemma {:induction false} WishGranted(s: State, cs: seq<Call>, r: nat, p: ChildPort, k: Kind)
    requires Wf(s) && Promotions(cs) && Run(s, cs).ok && r < |cs| && cs[r] == CallOf(p, k) && Adds(cs[r])
    ensures k.Ports? ==> p.dir.Some?
    ensures var a := Record(Run(s, cs).state.Of(k), Strip(p.signal));
            && Known(Run(s, cs).state.Of(k), Strip(p.signal))
            && forall x, v :: Wishes(p, k, x, v) ==> Holds(a, x, v)
  {
    var a := Record(Run(s, cs).state.Of(k), Strip(p.signal));
    StaysDone(s, cs, r);
    forall x, v | Wishes(p, k, x, v) ensures Holds(a, x, v) {
      PutsIff(p, k, x, v);
      if v != Nil {
        WrittenStays(s, cs, r, x, v);
      }
    }
  }

  /** No promotion connects a port. */
  lemma {:induction false} NeverConnected(s: State, cs: seq<Call>, r: nat)
    requires Wf(s) && Promotions(cs) && Run(s, cs).ok && r < |cs| && cs[r].AddPort?
    ensures Get(Target(Run(s, cs).state, cs[r]), "signal") == Nil
  {
    var c := cs[r];
    OpenWrites(c, "signal");
    OpenFilledIff(s, cs, r, "signal");
    forall j, v | 0 <= j < |cs| && Targets(cs[j], Ports, Strip(c.name)) && v != Nil ensures !Puts(cs[j], "signal", v) {
      ValueWrites(cs[j], "signal", v);
    }
  }

  lemma {:induction false} RunNeverMissing(s: State, cs: seq<Call>, r: nat)
    requires Run(s, cs).ok && r < |cs|
    ensures !cs[r].MissingAttribute?
  {
    PrefixOk(s, cs, r + 1, |cs|);
  }

  lemma {:induction false} SignalWishGranted(s: State, cs: seq<Call>, r: nat, p: ChildPort)
    requires Wf(s) && Promotions(cs) && Run(s, cs).ok && r < |cs| && cs[r] == CallOf(p, Signals)
    ensures SignalPromoted(Run(s, cs).state, p)
  {
    StripIsNameOf(p.signal);
    WishGranted(s, cs, r, p, Signals);
    assert Wishes(p, Signals, "name", Text(Strip(p.signal))) && Wishes(p, Signals, "width", p.width);
  }

  lemma {:induction false} PortWishGranted(s: State, cs: seq<Call>, r: nat, p: ChildPort)
    requires Wf(s) && Promotions(cs) && Run(s, cs).ok && r < |cs| && cs[r] == CallOf(p, Ports)
    ensures OutwardPromoted(Run(s, cs).state, p)
  {
    RunNeverMissing(s, cs, r);
    StripIsNameOf(p.signal);
    WishGranted(s, cs, r, p, Ports);
    NeverConnected(s, cs, r);
    assert Wishes(p, Ports, "name", Text(Strip(p.signal))) && Wishes(p, Ports, "width", p.width);
    assert Wishes(p, Ports, "parent_sig", Num(0)) && Wishes(p, Ports, "parent_port", Num(0));
    assert Wishes(p, Ports, "dir", p.dir.value);
  }

  lemma {:induction false} PortPromoted(s: State, bs: seq<Block>, cs: seq<Call>, os: seq<Origin>, i: int, j: int)
    requires Wf(s) && Promotions(cs) && Run(s, cs).ok && TraceTo(cs, bs, os, Origin(|bs|, 0, Signals)) && Within(bs, i, j)
    ensures Promoted(Run(s, cs).state, bs[i].ports[j])
  {
    var p := bs[i].ports[j];
    if p.parentSig {
      var r := Reached(cs, bs, os, i, j, Signals);
      SignalWishGranted(s, cs, r, p);
    }
    if p.parentPort {
      var r := Reached(cs, bs, os, i, j, Ports);
      PortWishGranted(s, cs, r, p);
    }
  }

  lemma {:induction false} TargetAsks(bs: seq<Block>, o: Origin, k: Kind, n: string)
    requires In(bs, o) && Targets(CallAt(bs, o), k, n)
    ensures o.step > 0 && o.kind == k && AsksFor(bs, o.block, o.step - 1, k, n)
  {
  }

  lemma {:induction false} NobodyAsks(s: State, bs: seq<Block>, cs: seq<Call>, os: seq<Origin>, k: Kind, n: string)
    requires Wf(s) && Promotions(cs) && Trace(cs, bs, os) && forall i, j :: !AsksFor(bs, i, j, k, n)
    ensures Alike(s.Of(k), Run(s, cs).state.Of(k), n)
  {
    forall i | 0 <= i < |cs| ensures !Targets(cs[i], k, n) {
      if Targets(cs[i], k, n) {
        TargetAsks(bs, os[i], k, n);
      }
    }
    RunElsewhere(s, cs, |cs|, k, n);
  }

  lemma {:induction false} ValueSourced(s: State, bs: seq<Block>, cs: seq<Call>, os: seq<Origin>, k: Kind, n: string,
                                       x: string)
    requires Wf(s) && Promotions(cs) && Run(s, cs).ok && Trace(cs, bs, os)
    ensures Sourced(s, Run(s, cs).state, bs, k, n, x)
  {
    var t := Run(s, cs).state;
    RunToKeeps(s, cs, 0, |cs|, k);
    assert Extends(Record(s.Of(k), n), Record(t.Of(k), n));
    var v := Get(Record(t.Of(k), n), x);
    if Get(Record(s.Of(k), n), x) == Nil && v != Nil {
      var r := RunOrigin(s, cs, 0, |cs|, k, n, x);
      TargetAsks(bs, os[r], k, n);
      var p := bs[os[r].block].ports[os[r].step - 1];
      PutsIff(p, k, x, v);
      StripIsNameOf(p.signal);
      assert Supplies(p, k, x, v);
    }
  }

  /** The call before one for a port is about the same block. */
  lemma {:induction false} SameBlock(bs: seq<Block>, cs: seq<Call>, os: seq<Origin>, q: nat)
    requires TraceTo(cs, bs, os, Origin(|bs|, 0, Signals)) && q < |cs| && os[q].step > 0
    ensures q > 0 && os[q - 1].block == os[q].block
  {
    var start := Origin(os[q].block, 0, Signals);
    assert start in os;
    var r :| 0 <= r < |os| && os[r] == start;
    InTraceOrder(cs, bs, os, r, q);
    assert r < q - 1 ==> Precedes(os[r], os[q - 1]);
    assert Precedes(os[q - 1], os[q]);
  }

  /** The current block is that of the port being dealt with. */
  lemma {:induction false} CurIn(s: State, bs: seq<Block>, cs: seq<Call>, os: seq<Origin>, q: nat)
    requires TraceTo(cs, bs, os, Origin(|bs|, 0, Signals)) && q < |cs| && RunTo(s, cs, q).ok && os[q].step > 0
    ensures RunTo(s, cs, q).state.cur == bs[os[q].block].name
  {
    SameBlock(bs, cs, os, q);
    StepCur(RunTo(s, cs, q - 1).state, cs[q - 1]);
    if os[q - 1].step > 0 {
      CurIn(s, bs, cs, os, q - 1);
    }
  }

  /** A name that no call was about has not become known. */
  lemma {:induction false} UnknownStays(s: State, cs: seq<Call>, m: nat, k: Kind, n: string)
    requires Wf(s) && m <= |cs| && !Known(s.Of(k), n) && forall i :: 0 <= i < m ==> !Targets(cs[i], k, n)
    ensures !Known(RunTo(s, cs, m).state.Of(k), n)
  {
    if m > 0 {
      UnknownStays(s, cs, m - 1, k, n);
      RunToWf(s, cs, m - 1);
      StepKnownIff(RunTo(s, cs, m - 1).state, cs[m - 1], k, n);
    }
  }

  lemma {:induction false} NewHome(s: State, bs: seq<Block>, cs: seq<Call>, os: seq<Origin>, k: Kind, n: string, i: int,
                                   j: int)
    requires Wf(s) && Run(s, cs).ok && TraceTo(cs, bs, os, Origin(|bs|, 0, Signals))
    requires FirstToAsk(bs, i, j, k, n) && !Known(s.Of(k), n)
    ensures Lives(Run(s, cs).state.Of(k), bs[i].name, n)
  {
    var r := Reached(cs, bs, os, i, j, k);
    NotAskedBefore(bs, cs, os, k, n, i, j, r);
    CurAt(s, bs, cs, os, r);
    HomeOfTarget(s, cs, r, k, n);
  }

  lemma {:induction false} CurAt(s: State, bs: seq<Block>, cs: seq<Call>, os: seq<Origin>, r: nat)
    requires TraceTo(cs, bs, os, Origin(|bs|, 0, Signals)) && r < |cs| && Run(s, cs).ok && os[r].step > 0
    ensures RunTo(s, cs, r + 1).ok && RunTo(s, cs, r).state.cur == bs[os[r].block].name
  {
    PrefixOk(s, cs, r + 1, |cs|);
    CurIn(s, bs, cs, os, r);
  }

  lemma {:induction false} NotAskedBefore(bs: seq<Block>, cs: seq<Call>, os: seq<Origin>, k: Kind, n: string, i: int, j: int,
                                          r: nat)
    requires Trace(cs, bs, os) && FirstToAsk(bs, i, j, k, n) && r < |cs| && os[r] == Origin(i, j + 1, k)
    ensures forall q :: 0 <= q < r ==> !Targets(cs[q], k, n)
  {
    forall q | 0 <= q < r ensures !Targets(cs[q], k, n) {
      assert Precedes(os[q], os[r]);
      if Targets(cs[q], k, n) {
        TargetAsks(bs, os[q], k, n);
      }
    }
  }

  /** The first call for a new name puts it into the block that is current then. */
  lemma {:induction false} HomeOfTarget(s: State, cs: seq<Call>, r: nat, k: Kind, n: string)
    requires Wf(s) && r < |cs| && RunTo(s, cs, r + 1).ok && Run(s, cs).ok && !Known(s.Of(k), n) && Targets(cs[r], k, n)
    requires forall q :: 0 <= q < r ==> !Targets(cs[q], k, n)
    ensures Lives(Run(s, cs).state.Of(k), RunTo(s, cs, r).state.cur, n)
  {
    UnknownStays(s, cs, r, k, n);
    RunToWf(s, cs, r);
    NewNameHome(RunTo(s, cs, r).state, cs[r], k, n);
    RunToKeeps(s, cs, r + 1, |cs|, k);
  }

  /** After an instantiation that went through, the parent holds what the child ports ask for, and nothing else is new. */
  lemma {:induction false} InstantiationPromotes(s: State, bs: seq<Block>)
    requires Wf(s) && Run(s, BlocksCalls(bs, |bs|)).ok
    ensures Instantiated(s, bs, Run(s, BlocksCalls(bs, |bs|)).state)
  {
    var cs := BlocksCalls(bs, |bs|);
    var os := TraceAll(bs, |bs|);
    var t := Run(s, cs).state;
    BlocksPromote(bs, |bs|);
    forall i, j | Within(bs, i, j) ensures Promoted(t, bs[i].ports[j]) {
      PortPromoted(s, bs, cs, os, i, j);
    }
    forall k, n | forall i, j :: !AsksFor(bs, i, j, k, n) ensures Alike(s.Of(k), t.Of(k), n) {
      NobodyAsks(s, bs, cs, os, k, n);
    }
    forall k, n, x ensures Sourced(s, t, bs, k, n, x) {
      ValueSourced(s, bs, cs, os, k, n, x);
    }
    forall k, n, i, j | FirstToAsk(bs, i, j, k, n) && !Known(s.Of(k), n) ensures Lives(t.Of(k), bs[i].name, n) {
      NewHome(s, bs, cs, os, k, n, i, j);
    }
  }

  // ---------------------------------------------------------------------------------------------------------
  // A second time
  // ---------------------------------------------------------------------------------------------------------

  /** p leaves a width or direction open that q sets. */
  ghost predicate LeavesOpen(p: ChildPort, q: ChildPort, k: Kind) {
    || (p.width == Nil && q.width != Nil)
    || (k.Ports? && p.dir == Some(Nil) && q.dir.Some? && q.dir.value != Nil)
  }

  /** Ports that ask for one name agree on what they leave open. */
  ghost predicate Uniform(bs: seq<Block>) {
    forall i, j, i', j', k, n :: AsksFor(bs, i, j, k, n) && AsksFor(bs, i', j', k, n) ==>
      !LeavesOpen(bs[i].ports[j], bs[i'].ports[j'], k)
  }

  lemma {:induction false} MixesPorts(p: ChildPort, q: ChildPort, k: Kind)
    requires Strip(p.signal) == Strip(q.signal) && (k.Ports? ==> p.dir.Some? && q.dir.Some?)
    ensures Mixes(CallOf(p, k), CallOf(q, k)) <==> LeavesOpen(p, q, k)
  {
  }

  lemma {:induction false} UniformIff(s: State, bs: seq<Block>, cs: seq<Call>, os: seq<Origin>)
    requires Promotions(cs) && Run(s, cs).ok && TraceTo(cs, bs, os, Origin(|bs|, 0, Signals))
    ensures NoMix(cs) <==> Uniform(bs)
  {
    if NoMix(cs) {
      forall i, j, i', j', k, n | AsksFor(bs, i, j, k, n) && AsksFor(bs, i', j', k, n)
        ensures !LeavesOpen(bs[i].ports[j], bs[i'].ports[j'], k)
      {
        var r := Reached(cs, bs, os, i, j, k);
        var q := Reached(cs, bs, os, i', j', k);
        RunNeverMissing(s, cs, r);
        RunNeverMissing(s, cs, q);
        MixesPorts(bs[i].ports[j], bs[i'].ports[j'], k);
      }
    }
    if Uniform(bs) {
      forall r, q | 0 <= r < |cs| && 0 <= q < |cs| ensures !Mixes(cs[r], cs[q]) {
        if Mixes(cs[r], cs[q]) {
          TargetAsks(bs, os[r], KindOf(cs[r]), Strip(cs[r].name));
          TargetAsks(bs, os[q], KindOf(cs[r]), Strip(cs[r].name));
          MixesPorts(bs[os[r].block].ports[os[r].step - 1], bs[os[q].block].ports[os[q].step - 1], os[r].kind);
        }
      }
    }
  }

  /** After a completed instantiation a second one changes no port and no signal, and goes through exactly if the ports that
      ask for one name all set its width or all leave it open, and likewise its direction. */
  lemma {:induction false} RepeatsIff(s: State, bs: seq<Block>)
    requires Wf(s) && Run(s, BlocksCalls(bs, |bs|)).ok
    ensures var t := Run(s, BlocksCalls(bs, |bs|)).state;
            && SameNets(t, Run(t, BlocksCalls(bs, |bs|)).state)
            && (Run(t, BlocksCalls(bs, |bs|)).ok <==> Uniform(bs))
  {
    var os := TraceAll(bs, |bs|);
    SecondInstantiation(s, bs);
    UniformIff(s, bs, BlocksCalls(bs, |bs|), os);
  }
}

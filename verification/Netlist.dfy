/** Ports and signals of a module, grouped by the block that created them, and what each call does to them. */
module Netlist {

  import Strings = Text
  import opened WriteOnce
  import opened Wrappers

  /** The two-layer dictionary: block name, then port or signal name. */
  type Dict = map<string, map<string, Attrs>>

  datatype Kind = Ports | Signals

  datatype State = State(cur: string, ports: Dict, signals: Dict) {
    function Of(k: Kind): Dict {
      if k.Ports? then ports else signals
    }
  }

  datatype Call =
    | SetCurBlk(block: string)
    | AddPort(name: string, signal: Value, parentPort: bool, parentSig: bool, width: Value, kwargs: seq<Write>)
    | AddSignal(name: string, width: Value, kwargs: seq<Write>)
    | MissingAttribute

  /** The name without trailing blanks. */
  function Strip(s: string): string {
    Strings.StripEnd(s, ' ')
  }

  function Bool(b: bool): Value {
    Num(if b then 1 else 0)
  }

  /** The signal is neither missing, nor a constant, nor an expression: it starts with a letter. */
  predicate Named(signal: Value) {
    signal.Text? && signal.s != "" && ('a' <= signal.s[0] <= 'z' || 'A' <= signal.s[0] <= 'Z')
  }

  /** The assignments of Port.update_attrs. */
  function PortWrites(c: Call): seq<Write>
    requires c.AddPort?
  {
    var parentPort := c.parentPort && Named(c.signal);
    var parentSig := c.parentSig && Named(c.signal);
    [ Write("name", Text(Strip(c.name))),
      Write("parent_sig", Bool(parentSig && !parentPort)),
      Write("parent_port", Bool(parentPort)),
      Write("width", c.width),
      Write("signal", c.signal)
    ] + c.kwargs
  }

  /** The assignments of Signal.update_attrs. */
  function SignalWrites(c: Call): seq<Write>
    requires c.AddSignal?
  {
    [Write("name", Text(Strip(c.name))), Write("width", c.width)] + c.kwargs
  }

  /** The constructor of Signal swallows a keyword called signal. */
  function NoSignalKeyword(c: Call): Call
    requires c.AddSignal?
  {
    c.(kwargs := Dropped(c.kwargs))
  }

  function Dropped(ws: seq<Write>): seq<Write> {
    if ws == [] then [] else (if ws[0].attr == "signal" then [] else [ws[0]]) + Dropped(ws[1..])
  }

  // ---------------------------------------------------------------------------------------------------------
  // Specification
  // ---------------------------------------------------------------------------------------------------------

  predicate Lives(d: Dict, b: string, n: string) {
    b in d && n in d[b]
  }

  ghost predicate OneHome(d: Dict) {
    forall b, b', n :: Lives(d, b, n) && Lives(d, b', n) ==> b == b'
  }

  ghost predicate Known(d: Dict, n: string) {
    exists b :: Lives(d, b, n)
  }

  ghost function Home(d: Dict, n: string): (b: string)
    requires Known(d, n)
    ensures Lives(d, b, n)
  {
    var b :| Lives(d, b, n); b
  }

  /** The attributes stored under a name, wherever it lives. */
  ghost function Record(d: Dict, n: string): Attrs {
    if Known(d, n) then d[Home(d, n)][n] else map[]
  }

  datatype Update = Update(dict: Dict, ok: bool)

  function Replace(d: Dict, b: string, n: string, a: Attrs): Dict
    requires b in d
  {
    d[b := d[b][n := a]]
  }

  /** A known name is updated where it lives; a new one is built and put into the current block. */
  ghost function Put(d: Dict, cur: string, n: string, initial: seq<Write>, again: seq<Write>): Update {
    if Known(d, n) then
      var o := SetAll(Record(d, n), again);
      Update(Replace(d, Home(d, n), n, o.attrs), o.ok)
    else
      var o := SetAll(map[], initial);
      if o.ok && cur in d then Update(Replace(d, cur, n, o.attrs), true) else Update(d, false)
  }

  datatype Stepped = Stepped(state: State, ok: bool)

  function Enter(d: Dict, b: string): Dict {
    d[b := map[]]
  }

  ghost function Step(s: State, c: Call): Stepped {
    match c
    case SetCurBlk(b) =>
      if b in s.ports then Stepped(s.(cur := b), true)
      else Stepped(State(b, Enter(s.ports, b), Enter(s.signals, b)), true)
    case AddPort(_, _, _, _, _, _) =>
      if c.signal.Num? then Stepped(s, false)
      else
        var u := Put(s.ports, s.cur, Strip(c.name), PortWrites(c), PortWrites(c));
        Stepped(s.(ports := u.dict), u.ok)
    case AddSignal(_, _, _) =>
      var u := Put(s.signals, s.cur, Strip(c.name), SignalWrites(NoSignalKeyword(c)), SignalWrites(c));
      Stepped(s.(signals := u.dict), u.ok)
    case MissingAttribute => Stepped(s, false)
  }

  /** What holds between calls. */
  ghost predicate Wf(s: State) {
    && s.cur in s.ports
    && s.ports.Keys == s.signals.Keys
    && OneHome(s.ports) && OneHome(s.signals)
  }

  /** The first n calls in order, stopping at the first that raises. */
  ghost function RunTo(s: State, cs: seq<Call>, n: nat): Stepped
    requires n <= |cs|
  {
    if n == 0 then Stepped(s, true)
    else
      var p := RunTo(s, cs, n - 1);
      if p.ok then Step(p.state, cs[n - 1]) else p
  }

  ghost function Run(s: State, cs: seq<Call>): Stepped {
    RunTo(s, cs, |cs|)
  }

  // ---------------------------------------------------------------------------------------------------------
  // Child ports
  // ---------------------------------------------------------------------------------------------------------

  /** A port of a child instance; a port may have been declared without a direction. */
  datatype ChildPort = ChildPort(signal: string, width: Value, dir: Option<Value>, parentSig: bool, parentPort: bool)

  /** A block of instances, with all their ports in the order they are visited. */
  datatype Block = Block(name: string, ports: seq<ChildPort>)

  function SignalCall(p: ChildPort): Call {
    Call.AddSignal(p.signal, p.width, [])
  }

  function PortCall(p: ChildPort): Call {
    if p.dir.None? then MissingAttribute
    else Call.AddPort(p.signal, Nil, false, true, p.width, [Write("dir", p.dir.value)])
  }

  function ChildCalls(p: ChildPort): seq<Call> {
    (if p.parentSig then [SignalCall(p)] else []) + (if p.parentPort then [PortCall(p)] else [])
  }

  function PortsCalls(ps: seq<ChildPort>, n: nat): seq<Call>
    requires n <= |ps|
  {
    if n == 0 then [] else PortsCalls(ps, n - 1) + ChildCalls(ps[n - 1])
  }

  function BlockCalls(b: Block): seq<Call> {
    [Call.SetCurBlk(b.name)] + PortsCalls(b.ports, |b.ports|)
  }

  function BlocksCalls(bs: seq<Block>, n: nat): seq<Call>
    requires n <= |bs|
  {
    if n == 0 then [] else BlocksCalls(bs, n - 1) + BlockCalls(bs[n - 1])
  }

  lemma {:induction false} RunPrefix(s: State, cs: seq<Call>, ds: seq<Call>, n: nat)
    requires n <= |cs|
    ensures RunTo(s, cs + ds, n) == RunTo(s, cs, n)
  {
    if n > 0 {
      RunPrefix(s, cs, ds, n - 1);
    }
  }

  lemma {:induction false} RunSplit(s: State, cs: seq<Call>, ds: seq<Call>, n: nat)
    requires n <= |ds|
    ensures RunTo(s, cs + ds, |cs| + n) == if Run(s, cs).ok then RunTo(Run(s, cs).state, ds, n) else Run(s, cs)
  {
    if n == 0 {
      RunPrefix(s, cs, ds, |cs|);
    } else {
      RunSplit(s, cs, ds, n - 1);
    }
  }

  /** A run in two parts. */
  lemma {:induction false} RunAppend(s: State, cs: seq<Call>, ds: seq<Call>)
    ensures Run(s, cs + ds) == if Run(s, cs).ok then Run(Run(s, cs).state, ds) else Run(s, cs)
  {
    RunSplit(s, cs, ds, |ds|);
  }

  lemma {:induction false} RunOne(s: State, c: Call)
    ensures Run(s, [c]) == Step(s, c)
  {
    assert RunTo(s, [c], 0) == Stepped(s, true);
  }

  /** Where the first n ports lead. */
  ghost predicate AfterPorts(s: State, ps: seq<ChildPort>, n: nat, t: Stepped)
    requires n <= |ps|
  {
    t == Run(s, PortsCalls(ps, n))
  }

  ghost predicate AfterBlocks(s: State, bs: seq<Block>, n: nat, t: Stepped)
    requires n <= |bs|
  {
    t == Run(s, BlocksCalls(bs, n))
  }

  lemma {:induction false} PortsNext(s: State, ps: seq<ChildPort>, i: nat, t: State)
    requires i < |ps| && AfterPorts(s, ps, i, Stepped(t, true))
    ensures AfterPorts(s, ps, i + 1, Run(t, ChildCalls(ps[i])))
  {
    RunAppend(s, PortsCalls(ps, i), ChildCalls(ps[i]));
  }

  lemma {:induction false} BlocksNext(s: State, bs: seq<Block>, i: nat, t: State)
    requires i < |bs| && AfterBlocks(s, bs, i, Stepped(t, true))
    ensures AfterBlocks(s, bs, i + 1, Run(t, BlockCalls(bs[i])))
  {
    RunAppend(s, BlocksCalls(bs, i), BlockCalls(bs[i]));
  }

  /** An exception ends the run. */
  lemma {:induction false} PortsDone(s: State, ps: seq<ChildPort>, i: nat, t: Stepped)
    requires i <= |ps| && AfterPorts(s, ps, i, t) && (t.ok ==> i == |ps|)
    ensures t == Run(s, PortsCalls(ps, |ps|))
  {
    if !t.ok {
      PortsStop(s, ps, i, |ps|);
    }
  }

  lemma {:induction false} BlocksDone(s: State, bs: seq<Block>, i: nat, t: Stepped)
    requires i <= |bs| && AfterBlocks(s, bs, i, t) && (t.ok ==> i == |bs|)
    ensures t == Run(s, BlocksCalls(bs, |bs|))
  {
    if !t.ok {
      BlocksStop(s, bs, i, |bs|);
    }
  }

  lemma {:induction false} PortsStop(s: State, ps: seq<ChildPort>, m: nat, n: nat)
    requires m <= n <= |ps| && !Run(s, PortsCalls(ps, m)).ok
    ensures Run(s, PortsCalls(ps, n)) == Run(s, PortsCalls(ps, m))
  {
    if m < n {
      PortsStop(s, ps, m, n - 1);
      RunAppend(s, PortsCalls(ps, n - 1), ChildCalls(ps[n - 1]));
    }
  }

  lemma {:induction false} BlocksStop(s: State, bs: seq<Block>, m: nat, n: nat)
    requires m <= n <= |bs| && !Run(s, BlocksCalls(bs, m)).ok
    ensures Run(s, BlocksCalls(bs, n)) == Run(s, BlocksCalls(bs, m))
  {
    if m < n {
      BlocksStop(s, bs, m, n - 1);
      RunAppend(s, BlocksCalls(bs, n - 1), BlockCalls(bs[n - 1]));
    }
  }

  lemma {:induction false} ChildRun(s: State, p: ChildPort)
    ensures Run(s, ChildCalls(p)) ==
            var t := if p.parentSig then Step(s, SignalCall(p)) else Stepped(s, true);
            if t.ok && p.parentPort then Step(t.state, PortCall(p)) else t
  {
    var cs := if p.parentSig then [SignalCall(p)] else [];
    var ds := if p.parentPort then [PortCall(p)] else [];
    RunAppend(s, cs, ds);
    RunOne(s, SignalCall(p));
    RunOne(Run(s, cs).state, PortCall(p));
  }

  ghost function Initial(): State {
    State("default", map["default" := map[]], map["default" := map[]])
  }

  // ---------------------------------------------------------------------------------------------------------
  // One call
  // ---------------------------------------------------------------------------------------------------------

  /** d' keeps every name of d in its block, and every settled value. */
  ghost predicate Keeps(d: Dict, d': Dict) {
    && (forall b, n :: Lives(d, b, n) ==> Lives(d', b, n))
    && (forall n {:trigger Record(d, n)} {:trigger Record(d', n)} :: Extends(Record(d, n), Record(d', n)))
  }

  lemma {:induction false} ReplaceEffect(d: Dict, b: string, n: string, a: Attrs)
    requires OneHome(d) && b in d && (Known(d, n) ==> Home(d, n) == b)
    ensures var d' := Replace(d, b, n, a);
            && d'.Keys == d.Keys && OneHome(d')
            && (forall b', n' :: Lives(d', b', n') <==> Lives(d, b', n') || (b' == b && n' == n))
            && Record(d', n) == a
            && (forall n' :: n' != n ==> Record(d', n') == Record(d, n'))
  {
    var d' := Replace(d, b, n, a);
    assert forall b', n' :: Lives(d', b', n') <==> Lives(d, b', n') || (b' == b && n' == n);
    assert Lives(d', b, n);
    assert Home(d', n) == b;
    forall n' | n' != n ensures Record(d', n') == Record(d, n') {
      if Known(d, n') {
        assert Lives(d', Home(d, n'), n');
        assert Home(d', n') == Home(d, n');
      }
    }
  }

  /** What Put does to the record, and to nothing else. */
  lemma {:induction false} PutEffect(d: Dict, cur: string, n: string, initial: seq<Write>, again: seq<Write>)
    requires OneHome(d)
    ensures var u := Put(d, cur, n, initial, again);
            && u.dict.Keys == d.Keys && OneHome(u.dict)
            && (forall b', n' :: n' != n ==> (Lives(u.dict, b', n') <==> Lives(d, b', n')))
            && (forall b' :: Lives(d, b', n) ==> Lives(u.dict, b', n))
            && (forall n' :: n' != n ==> Record(u.dict, n') == Record(d, n'))
            && (Known(d, n) ==> SetAll(Record(d, n), again) == Outcome(Record(u.dict, n), u.ok))
            && (!Known(d, n) && u.ok ==> SetAll(map[], initial) == Outcome(Record(u.dict, n), true))
            && (!Known(d, n) && !u.ok ==> u.dict == d)
            && (u.ok ==> Known(u.dict, n))
  {
    if Known(d, n) {
      ReplaceEffect(d, Home(d, n), n, SetAll(Record(d, n), again).attrs);
      assert Lives(Put(d, cur, n, initial, again).dict, Home(d, n), n);
    } else if SetAll(map[], initial).ok && cur in d {
      ReplaceEffect(d, cur, n, SetAll(map[], initial).attrs);
      assert Lives(Put(d, cur, n, initial, again).dict, cur, n);
    }
  }

  lemma {:induction false} PutKeeps(d: Dict, cur: string, n: string, initial: seq<Write>, again: seq<Write>)
    requires OneHome(d)
    ensures Keeps(d, Put(d, cur, n, initial, again).dict)
  {
    PutEffect(d, cur, n, initial, again);
    AfterExtends(Record(d, n), again, |again|);
  }

  lemma {:induction false} EnterEffect(d: Dict, b: string)
    requires b !in d && OneHome(d)
    ensures OneHome(Enter(d, b)) && Keeps(d, Enter(d, b))
    ensures forall b', n :: Lives(Enter(d, b), b', n) <==> Lives(d, b', n)
    ensures forall n :: Record(Enter(d, b), n) == Record(d, n)
  {
    var e := Enter(d, b);
    assert forall b', n :: Lives(e, b', n) <==> Lives(d, b', n);
    forall n ensures Record(e, n) == Record(d, n) {
      if Known(d, n) {
        assert Lives(e, Home(d, n), n);
        assert Home(e, n) == Home(d, n);
      }
    }
  }

  lemma {:induction false} StepKeepsWf(s: State, c: Call)
    requires Wf(s)
    ensures Wf(Step(s, c).state)
  {
    match c
    case SetCurBlk(b) =>
      if b !in s.ports {
        EnterEffect(s.ports, b);
        EnterEffect(s.signals, b);
      }
    case AddPort(_, _, _, _, _, _) =>
      PutEffect(s.ports, s.cur, Strip(c.name), PortWrites(c), PortWrites(c));
    case AddSignal(_, _, _) =>
      PutEffect(s.signals, s.cur, Strip(c.name), SignalWrites(NoSignalKeyword(c)), SignalWrites(c));
    case MissingAttribute =>
  }

  /** Every call, whether it raises or not, keeps each name in its block and each settled value. */
  lemma {:induction false} StepKeeps(s: State, c: Call, k: Kind)
    requires Wf(s)
    ensures Keeps(s.Of(k), Step(s, c).state.Of(k))
  {
    match c
    case SetCurBlk(b) =>
      if b !in s.ports {
        EnterEffect(s.Of(k), b);
      }
    case AddPort(_, _, _, _, _, _) =>
      PutKeeps(s.ports, s.cur, Strip(c.name), PortWrites(c), PortWrites(c));
    case AddSignal(_, _, _) =>
      PutKeeps(s.signals, s.cur, Strip(c.name), SignalWrites(NoSignalKeyword(c)), SignalWrites(c));
    case MissingAttribute =>
  }
}

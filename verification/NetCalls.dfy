/** The module object whose methods add ports and signals, and the walk that instantiates child ports. */
module NetCalls {

  import opened WriteOnce
  import opened Netlist
  import opened NetPromotions
  import opened Wrappers

  /** search_dict_for_name: the blocks may come in any order. */
  method SearchDictForName(d: Dict, n: string) returns (r: Option<string>)
    ensures r.None? <==> !Known(d, n)
    ensures r.Some? ==> Lives(d, r.value, n)
  {
    var rest := d.Keys;
    while rest != {}
      invariant rest <= d.Keys
      invariant forall b :: b in d && b !in rest ==> n !in d[b]
    {
      var b :| b in rest;
      if n in d[b] {
        assert Lives(d, b, n);
        return Some(b);
      }
      rest := rest - {b};
    }
    r := None;
  }

  /** The common part of add_port and add_signal. */
  method Store(d: Dict, cur: string, n: string, initial: seq<Write>, again: seq<Write>) returns (u: Update)
    requires OneHome(d)
    ensures u == Put(d, cur, n, initial, again)
  {
    var key := SearchDictForName(d, n);
    if key.None? {
      var o := UpdateAttrs(map[], initial);
      if !o.ok || cur !in d {
        return Update(d, false);
      }
      u := Update(Replace(d, cur, n, o.attrs), true);
    } else {
      assert key.value == Home(d, n);
      var o := UpdateAttrs(d[key.value][n], again);
      u := Update(Replace(d, key.value, n, o.attrs), o.ok);
    }
  }

  class NetModule {
    var cur: string
    var ports: Dict
    var signals: Dict

    ghost function Current(): State
      reads this
    {
      State(cur, ports, signals)
    }

    ghost predicate Valid()
      reads this
    {
      Wf(Current())
    }

    constructor ()
      ensures Valid() && Current() == Initial()
    {
      cur := "default";
      ports := map["default" := map[]];
      signals := map["default" := map[]];
    }

    method SetCurBlk(block: string)
      requires Valid()
      modifies this
      ensures Valid() && Stepped(Current(), true) == Step(old(Current()), Call.SetCurBlk(block))
    {
      cur := block;
      if block !in ports {
        ports := Enter(ports, block);
        signals := Enter(signals, block);
      }
      StepKeepsWf(old(Current()), Call.SetCurBlk(block));
    }

    method AddPort(c: Call) returns (ok: bool)
      requires Valid() && c.AddPort?
      modifies this
      ensures Valid() && Stepped(Current(), ok) == Step(old(Current()), c)
    {
      if c.signal.Num? {
        return false;
      }
      var u := Store(ports, cur, Strip(c.name), PortWrites(c), PortWrites(c));
      ports := u.dict;
      ok := u.ok;
      StepKeepsWf(old(Current()), c);
    }

    method AddSignal(c: Call) returns (ok: bool)
      requires Valid() && c.AddSignal?
      modifies this
      ensures Valid() && Stepped(Current(), ok) == Step(old(Current()), c)
    {
      var u := Store(signals, cur, Strip(c.name), SignalWrites(NoSignalKeyword(c)), SignalWrites(c));
      signals := u.dict;
      ok := u.ok;
      StepKeepsWf(old(Current()), c);
    }

    method InstantiatePort(p: ChildPort) returns (ok: bool)
      requires Valid()
      modifies this
      ensures Valid() && Stepped(Current(), ok) == Run(old(Current()), ChildCalls(p))
    {
      ChildRun(Current(), p);
      ok := true;
      if p.parentSig {
        ok := AddSignal(SignalCall(p));
        if !ok {
          return;
        }
      }
      if p.parentPort {
        if p.dir.None? {
          return false;
        }
        ok := AddPort(PortCall(p));
      }
    }

    method InstantiatePorts(ps: seq<ChildPort>) returns (ok: bool)
      requires Valid()
      modifies this
      ensures Valid() && Stepped(Current(), ok) == Run(old(Current()), PortsCalls(ps, |ps|))
    {
      ghost var s := Current();
      ok := true;
      var i := 0;
      while ok && i < |ps|
        invariant 0 <= i <= |ps| && Valid()
        invariant AfterPorts(s, ps, i, Stepped(Current(), ok))
      {
        PortsNext(s, ps, i, Current());
        ok := InstantiatePort(ps[i]);
        i := i + 1;
      }
      PortsDone(s, ps, i, Stepped(Current(), ok));
    }

    method InstantiateBlock(b: Block) returns (ok: bool)
      requires Valid()
      modifies this
      ensures Valid() && Stepped(Current(), ok) == Run(old(Current()), BlockCalls(b))
    {
      RunAppend(Current(), [Call.SetCurBlk(b.name)], PortsCalls(b.ports, |b.ports|));
      RunOne(Current(), Call.SetCurBlk(b.name));
      SetCurBlk(b.name);
      ok := InstantiatePorts(b.ports);
    }

    /** All child ports, block by block; an exception ends the walk. It goes through exactly if no wish of a port meets
        another value, and then the parent holds what the ports ask for. */
    method InstantiateChildPorts(bs: seq<Block>) returns (ok: bool)
      requires Valid()
      modifies this
      ensures Valid() && Stepped(Current(), ok) == Run(old(Current()), BlocksCalls(bs, |bs|))
      ensures ok <==> Completes(old(Current()), bs)
      ensures ok ==> Instantiated(old(Current()), bs, Current())
    {
      ghost var s := Current();
      ok := true;
      var i := 0;
      while ok && i < |bs|
        invariant 0 <= i <= |bs| && Valid()
        invariant AfterBlocks(s, bs, i, Stepped(Current(), ok))
      {
        BlocksNext(s, bs, i, Current());
        ok := InstantiateBlock(bs[i]);
        i := i + 1;
      }
      BlocksDone(s, bs, i, Stepped(Current(), ok));
      CompletesIff(s, bs);
      if ok {
        InstantiationPromotes(s, bs);
      }
    }
  }
}

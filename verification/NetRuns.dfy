/** Whole runs of calls on a module, and repeating the instantiation of child ports. */
module NetRuns {

  import opened WriteOnce
  import opened Netlist
  import opened Wrappers

  // ---------------------------------------------------------------------------------------------------------
  // Every run
  // ---------------------------------------------------------------------------------------------------------

  /** The states a module goes through; a caller may go on after a call that raised. */
  ghost predicate IsRun(states: seq<State>, calls: seq<Call>) {
    && |states| == |calls| + 1
    && states[0] == Initial()
    && forall i :: 0 <= i < |calls| ==> states[i + 1] == Step(states[i], calls[i]).state
  }

  lemma {:induction false} RunWf(states: seq<State>, calls: seq<Call>, i: nat)
    requires IsRun(states, calls) && i < |states|
    ensures Wf(states[i])
  {
    if i > 0 {
      RunWf(states, calls, i - 1);
      StepKeepsWf(states[i - 1], calls[i - 1]);
    }
  }

  /** A name never moves to another block. */
  lemma {:induction false} NamesStay(states: seq<State>, calls: seq<Call>, k: Kind, b: string, n: string, i: nat, j: nat)
    requires IsRun(states, calls) && i <= j < |states| && Lives(states[i].Of(k), b, n)
    ensures Lives(states[j].Of(k), b, n)
  {
    if i < j {
      NamesStay(states, calls, k, b, n, i, j - 1);
      RunWf(states, calls, j - 1);
      StepKeeps(states[j - 1], calls[j - 1], k);
    }
  }

  /** The values an attribute of a name takes along a run. */
  ghost function History(states: seq<State>, k: Kind, n: string, x: string): (h: seq<Value>)
    ensures |h| == |states|
    ensures forall i :: 0 <= i < |h| ==> h[i] == Get(Record(states[i].Of(k), n), x)
  {
    seq(|states|, i requires 0 <= i < |states| => Get(Record(states[i].Of(k), n), x))
  }

  /** Along every run the values of an attribute are None values followed by one constant, calls that raise included. */
  lemma {:induction false} AttributesSettle(states: seq<State>, calls: seq<Call>, k: Kind, n: string, x: string)
    requires IsRun(states, calls)
    ensures NilsThenConstant(History(states, k, n, x))
  {
    var h := History(states, k, n, x);
    forall i | 0 <= i < |h| - 1 && h[i] != Nil ensures h[i + 1] == h[i] {
      RunWf(states, calls, i);
      StepKeeps(states[i], calls[i], k);
      assert Extends(Record(states[i].Of(k), n), Record(states[i + 1].Of(k), n));
    }
    SettlingHistory(h);
  }

  /** The dictionary and name a call is about. */
  ghost predicate Targets(c: Call, k: Kind, n: string) {
    (c.AddPort? && k == Ports && n == Strip(c.name)) || (c.AddSignal? && k == Signals && n == Strip(c.name))
  }

  /** Which names a call makes known. */
  lemma {:induction false} StepKnownIff(s: State, c: Call, k: Kind, n: string)
    requires Wf(s)
    ensures Known(Step(s, c).state.Of(k), n) <==> Known(s.Of(k), n) || (Targets(c, k, n) && Step(s, c).ok)
  {
    var d, d' := s.Of(k), Step(s, c).state.Of(k);
    match c {
      case SetCurBlk(b) =>
        if b !in s.ports {
          EnterEffect(d, b);
        }
      case AddPort(_, _, _, _, _, _) =>
        PutEffect(s.ports, s.cur, Strip(c.name), PortWrites(c), PortWrites(c));
      case AddSignal(_, _, _) =>
        PutEffect(s.signals, s.cur, Strip(c.name), SignalWrites(NoSignalKeyword(c)), SignalWrites(c));
      case MissingAttribute =>
    }
    if Known(d, n) {
      StepKeeps(s, c, k);
      assert Lives(d', Home(d, n), n);
    }
  }

  /** Exactly one block holds the name. */
  ghost predicate HasOneHome(d: Dict, n: string) {
    exists b :: Lives(d, b, n) && forall b' :: Lives(d, b', n) ==> b' == b
  }

  /** Over every run a name is in exactly one block if some call for it went through, and in no block otherwise. */
  lemma {:induction false} OneHomeIffAdded(states: seq<State>, calls: seq<Call>, k: Kind, n: string, j: nat)
    requires IsRun(states, calls) && j < |states|
    ensures HasOneHome(states[j].Of(k), n) <==> Known(states[j].Of(k), n)
    ensures Known(states[j].Of(k), n) <==>
            exists i :: 0 <= i < j && Targets(calls[i], k, n) && Step(states[i], calls[i]).ok
  {
    RunWf(states, calls, j);
    if Known(states[j].Of(k), n) {
      assert Lives(states[j].Of(k), Home(states[j].Of(k), n), n);
    }
    KnownIffAdded(states, calls, k, n, j);
  }

  lemma {:induction false} KnownIffAdded(states: seq<State>, calls: seq<Call>, k: Kind, n: string, j: nat)
    requires IsRun(states, calls) && j < |states|
    ensures Known(states[j].Of(k), n) <==>
            exists i :: 0 <= i < j && Targets(calls[i], k, n) && Step(states[i], calls[i]).ok
  {
    if j == 0 {
      assert !exists b :: Lives(Initial().Of(k), b, n);
    } else {
      KnownIffAdded(states, calls, k, n, j - 1);
      RunWf(states, calls, j - 1);
      StepKnownIff(states[j - 1], calls[j - 1], k, n);
      assert states[j] == Step(states[j - 1], calls[j - 1]).state;
    }
  }

  /** A name that a call makes known lands in the current block. */
  lemma {:induction false} NewNameHome(s: State, c: Call, k: Kind, n: string)
    requires Wf(s) && Targets(c, k, n) && !Known(s.Of(k), n) && Step(s, c).ok
    ensures Lives(Step(s, c).state.Of(k), s.cur, n)
  {
  }

  /** Over every run a name lives in the block that was current at the first call for it that went through. */
  lemma {:induction false} HomeIsWhereAdded(states: seq<State>, calls: seq<Call>, k: Kind, n: string, i: nat, j: nat)
    requires IsRun(states, calls) && i < j < |states|
    requires Targets(calls[i], k, n) && Step(states[i], calls[i]).ok
    requires forall m :: 0 <= m < i && Targets(calls[m], k, n) ==> !Step(states[m], calls[m]).ok
    ensures forall b :: Lives(states[j].Of(k), b, n) <==> b == states[i].cur
  {
    RunWf(states, calls, i);
    RunWf(states, calls, j);
    KnownIffAdded(states, calls, k, n, i);
    NewNameHome(states[i], calls[i], k, n);
    NamesStay(states, calls, k, states[i].cur, n, i + 1, j);
  }

  lemma {:induction false} StepCur(s: State, c: Call)
    ensures Step(s, c).state.cur == if c.SetCurBlk? then c.block else s.cur
  {
  }

  /** The current block is the last one entered, or the default one. */
  lemma {:induction false} CurrentBlock(states: seq<State>, calls: seq<Call>, i: nat, m: int)
    requires IsRun(states, calls) && -1 <= m < i < |states| && (m >= 0 ==> calls[m].SetCurBlk?)
    requires forall j :: m < j < i ==> !calls[j].SetCurBlk?
    ensures states[i].cur == if m < 0 then "default" else calls[m].block
    decreases i
  {
    if i > 0 {
      StepCur(states[i - 1], calls[i - 1]);
      assert states[i] == Step(states[i - 1], calls[i - 1]).state;
      if i - 1 > m {
        CurrentBlock(states, calls, i - 1, m);
      }
    }
  }

  // ---------------------------------------------------------------------------------------------------------
  // What one call stores
  // ---------------------------------------------------------------------------------------------------------

  /** The signal starts with a letter. */
  ghost predicate StartsWithLetter(v: Value) {
    v.Text? && v.s != "" && (v.s[0] in Strings.LOWER || v.s[0] in Strings.UPPER)
  }

  lemma {:induction false} NamedIff(v: Value)
    ensures Named(v) <==> StartsWithLetter(v)
  {
    if v.Text? && v.s != "" {
      Strings.LetterIff(v.s[0]);
    }
  }

  /** Keyword arguments: none twice, and none that is a parameter of its own. */
  ghost predicate Keywords(kwargs: seq<Write>, params: set<string>) {
    DistinctAttrs(kwargs) && forall i :: 0 <= i < |kwargs| ==> kwargs[i].attr !in params
  }

  const PORT_PARAMS := {"name", "signal", "parent_port", "parent_sig", "width"}
  const SIGNAL_PARAMS := {"name", "width"}

  /** The name without its trailing blanks. */
  ghost predicate NameOf(stored: Value, name: string) {
    && stored.Text? && stored.s <= name && (forall i :: |stored.s| <= i < |name| ==> name[i] == ' ')
    && (stored.s == "" || stored.s[|stored.s| - 1] != ' ')
  }

  lemma {:induction false} StripIsNameOf(name: string)
    ensures NameOf(Text(Strip(name)), name)
  {
    Strings.StripEndIs(name, ' ');
  }

  lemma {:induction false} PortWritesDistinct(c: Call)
    requires c.AddPort? && Keywords(c.kwargs, PORT_PARAMS)
    ensures DistinctAttrs(PortWrites(c))
  {
    var ws := PortWrites(c);
    assert ws[0].attr == "name" && ws[1].attr == "parent_sig" && ws[2].attr == "parent_port";
    assert ws[3].attr == "width" && ws[4].attr == "signal";
    assert forall i :: 5 <= i < |ws| ==> ws[i] == c.kwargs[i - 5];
    assert forall i :: 0 <= i < 5 ==> ws[i].attr in PORT_PARAMS;
    FiveNames();
  }

  lemma {:induction false} FiveNames()
    ensures "name" != "parent_sig" && "name" != "parent_port" && "name" != "width" && "name" != "signal"
    ensures "parent_sig" != "parent_port" && "parent_sig" != "width" && "parent_sig" != "signal"
    ensures "parent_port" != "width" && "parent_port" != "signal" && "width" != "signal"
  {
    assert "parent_sig"[7] == 's' && "parent_port"[7] == 'p';
    assert "name"[0] == 'n' && "width"[0] == 'w' && "signal"[0] == 's' && "parent_sig"[0] == 'p';
  }

  /** The stripped name, the signal, the width and every keyword argument are stored; the port asks for a port of its
      parent, or else for a signal of its parent, only if its signal starts with a letter. */
  ghost predicate HoldsPort(a: Attrs, c: Call)
    requires c.AddPort?
  {
    var letter := StartsWithLetter(c.signal);
    && NameOf(Get(a, "name"), c.name) && Get(a, "signal") == c.signal && Get(a, "width") == c.width
    && Get(a, "parent_port") == Num(if c.parentPort && letter then 1 else 0)
    && Get(a, "parent_sig") == Num(if c.parentSig && !c.parentPort && letter then 1 else 0)
    && forall w :: w in c.kwargs ==> Get(a, w.attr) == w.value
  }

  lemma {:induction false} PortStoredIn(a: Attrs, c: Call)
    requires c.AddPort? && Keywords(c.kwargs, PORT_PARAMS) && SetAll(a, PortWrites(c)).ok
    ensures HoldsPort(SetAll(a, PortWrites(c)).attrs, c)
  {
    var ws := PortWrites(c);
    var b := SetAll(a, ws).attrs;
    PortWritesDistinct(c);
    SettledAfter(a, ws, |ws|);
    assert forall i :: 0 <= i < |ws| ==> Get(b, ws[i].attr) == ws[i].value;
    NamedIff(c.signal);
    StripIsNameOf(c.name);
    assert ws[0].attr == "name" && ws[1].attr == "parent_sig" && ws[2].attr == "parent_port";
    assert ws[3].attr == "width" && ws[4].attr == "signal";
    forall w | w in c.kwargs ensures Get(b, w.attr) == w.value {
      var i :| 0 <= i < |c.kwargs| && c.kwargs[i] == w;
      assert ws[5 + i] == w;
    }
  }

  /** A port that was just added holds what the call says. */
  lemma {:induction false} PromotionFlags(s: State, c: Call)
    requires Wf(s) && c.AddPort? && Keywords(c.kwargs, PORT_PARAMS) && Step(s, c).ok
    ensures HoldsPort(Record(Step(s, c).state.ports, Strip(c.name)), c)
  {
    var ws := PortWrites(c);
    PutEffect(s.ports, s.cur, Strip(c.name), ws, ws);
    PortStoredIn(if Known(s.ports, Strip(c.name)) then Record(s.ports, Strip(c.name)) else map[], c);
  }

  lemma {:induction false} DroppedMembers(ws: seq<Write>)
    ensures forall w :: w in Dropped(ws) <==> w in ws && w.attr != "signal"
    ensures DistinctAttrs(ws) ==> DistinctAttrs(Dropped(ws))
  {
    if ws != [] {
      DroppedMembers(ws[1..]);
      if DistinctAttrs(ws) {
        assert DistinctAttrs(ws[1..]);
        assert forall w :: w in ws[1..] ==> w.attr != ws[0].attr;
      }
    }
  }

  lemma {:induction false} SignalWritesDistinct(c: Call)
    requires c.AddSignal? && Keywords(c.kwargs, SIGNAL_PARAMS)
    ensures DistinctAttrs(SignalWrites(c))
  {
    var ws := SignalWrites(c);
    assert ws[0].attr == "name" && ws[1].attr == "width";
    assert forall i :: 2 <= i < |ws| ==> ws[i] == c.kwargs[i - 2];
    FiveNames();
  }

  lemma {:induction false} StoredIn(a: Attrs, c: Call)
    requires c.AddSignal? && Keywords(c.kwargs, SIGNAL_PARAMS) && SetAll(a, SignalWrites(c)).ok
    ensures var b := SetAll(a, SignalWrites(c)).attrs;
            && NameOf(Get(b, "name"), c.name) && Get(b, "width") == c.width
            && forall w :: w in c.kwargs ==> Get(b, w.attr) == w.value
  {
    var ws := SignalWrites(c);
    var b := SetAll(a, ws).attrs;
    SignalWritesDistinct(c);
    SettledAfter(a, ws, |ws|);
    StripIsNameOf(c.name);
    assert ws[0] == Write("name", Text(Strip(c.name))) && ws[1] == Write("width", c.width);
    assert forall i :: 0 <= i < |ws| ==> Get(b, ws[i].attr) == ws[i].value;
    forall w | w in c.kwargs ensures Get(b, w.attr) == w.value {
      var i :| 0 <= i < |c.kwargs| && c.kwargs[i] == w;
      assert ws[2 + i] == w;
    }
  }

  /** A signal that was just added holds its stripped name, its width and every keyword argument, except that a new signal
      has swallowed a keyword called signal. */
  lemma {:induction false} SignalStored(s: State, c: Call)
    requires Wf(s) && c.AddSignal? && Keywords(c.kwargs, SIGNAL_PARAMS) && Step(s, c).ok
    ensures var a, isNew := Record(Step(s, c).state.signals, Strip(c.name)), !Known(s.signals, Strip(c.name));
            && NameOf(Get(a, "name"), c.name) && Get(a, "width") == c.width
            && (forall w :: w in c.kwargs && !(isNew && w.attr == "signal") ==> Get(a, w.attr) == w.value)
            && (isNew ==> Get(a, "signal") == Nil)
  {
    var n, d := Strip(c.name), NoSignalKeyword(c);
    PutEffect(s.signals, s.cur, n, SignalWrites(d), SignalWrites(c));
    if Known(s.signals, n) {
      StoredIn(Record(s.signals, n), c);
    } else {
      DroppedMembers(c.kwargs);
      assert forall i :: 0 <= i < |d.kwargs| ==> d.kwargs[i] in c.kwargs;
      assert forall w :: w in c.kwargs ==> w.attr !in SIGNAL_PARAMS;
      StoredIn(map[], d);
      NoSignalStored(d);
    }
  }

  lemma {:induction false} NoSignalStored(d: Call)
    requires d.AddSignal? && (forall w :: w in d.kwargs ==> w.attr != "signal") && SetAll(map[], SignalWrites(d)).ok
    ensures Get(SetAll(map[], SignalWrites(d)).attrs, "signal") == Nil
  {
    var ws := SignalWrites(d);
    AfterMerges(map[], ws, |ws|);
    FiveNames();
    forall j | 0 <= j < |ws| ensures ws[j].attr != "signal" {
      assert ws[j] == if j == 0 then Write("name", Text(Strip(d.name))) else if j == 1 then Write("width", d.width)
                      else d.kwargs[j - 2];
      assert j >= 2 ==> ws[j] in d.kwargs;
    }
  }

  // ---------------------------------------------------------------------------------------------------------
  // When one call goes through
  // ---------------------------------------------------------------------------------------------------------

  /** What a call wants stored under an attribute. */
  ghost predicate Wants(c: Call, x: string, v: Value)
    requires Adds(c)
  {
    || (x == "name" && v == Text(Strip(c.name)))
    || (x == "width" && v == c.width)
    || Write(x, v) in c.kwargs
    || (c.AddPort? && x == "signal" && v == c.signal)
    || (c.AddPort? && x == "parent_port" && v == Num(if c.parentPort && StartsWithLetter(c.signal) then 1 else 0))
    || (c.AddPort? && x == "parent_sig" &&
        v == Num(if c.parentSig && !c.parentPort && StartsWithLetter(c.signal) then 1 else 0))
  }

  ghost predicate Adds(c: Call) {
    c.AddPort? || c.AddSignal?
  }

  ghost predicate AllAllowed(a: Attrs, ws: seq<Write>) {
    forall i :: 0 <= i < |ws| ==> Allows(ws[i].attr, Get(a, ws[i].attr), ws[i].value)
  }

  lemma {:induction false} DistinctOkIff(a: Attrs, ws: seq<Write>)
    requires DistinctAttrs(ws)
    ensures SetAll(a, ws).ok <==> AllAllowed(a, ws)
  {
    WritesSucceedIff(a, ws, |ws|);
  }

  lemma {:induction false} PortWants(c: Call, w: Write)
    requires c.AddPort?
    ensures w in PortWrites(c) <==> Wants(c, w.attr, w.value)
  {
    var ws := PortWrites(c);
    NamedIff(c.signal);
    assert ws == ws[..5] + c.kwargs;
    assert ws[0] == Write("name", Text(Strip(c.name))) && ws[3] == Write("width", c.width);
    assert ws[4] == Write("signal", c.signal);
    assert ws[1].attr == "parent_sig" && ws[2].attr == "parent_port";
    assert w in ws[..5] <==> w == ws[0] || w == ws[1] || w == ws[2] || w == ws[3] || w == ws[4];
  }

  lemma {:induction false} SignalWants(c: Call, w: Write)
    requires c.AddSignal?
    ensures w in SignalWrites(c) <==> Wants(c, w.attr, w.value)
  {
    var ws := SignalWrites(c);
    assert ws == ws[..2] + c.kwargs;
    assert w in ws[..2] <==> w == ws[0] || w == ws[1];
  }

  /** add_port goes through exactly if the signal is no number and nothing else is stored for what it wants; on a new name
      nothing is. */
  lemma {:induction false} AddPortIff(s: State, c: Call)
    requires Wf(s) && c.AddPort? && Keywords(c.kwargs, PORT_PARAMS)
    ensures var a := Record(s.ports, Strip(c.name));
            Step(s, c).ok <==> !c.signal.Num? && forall x, v :: Wants(c, x, v) ==> Allows(x, Get(a, x), v)
  {
    var a, ws := Record(s.ports, Strip(c.name)), PortWrites(c);
    PortWritesDistinct(c);
    DistinctOkIff(a, ws);
    forall x, v ensures Wants(c, x, v) <==> Write(x, v) in ws {
      PortWants(c, Write(x, v));
    }
    forall i | 0 <= i < |ws| ensures Wants(c, ws[i].attr, ws[i].value) {
      PortWants(c, ws[i]);
    }
  }

  /** add_signal goes through exactly if nothing else is stored for what it wants. */
  lemma {:induction false} AddSignalIff(s: State, c: Call)
    requires Wf(s) && c.AddSignal? && Keywords(c.kwargs, SIGNAL_PARAMS)
    ensures var a := Record(s.signals, Strip(c.name));
            Step(s, c).ok <==> forall x, v :: Wants(c, x, v) ==> Allows(x, Get(a, x), v)
  {
    var a, ws := Record(s.signals, Strip(c.name)), SignalWrites(c);
    SignalWritesDistinct(c);
    DistinctOkIff(a, ws);
    forall x, v ensures Wants(c, x, v) <==> Write(x, v) in ws {
      SignalWants(c, Write(x, v));
    }
    forall i | 0 <= i < |ws| ensures Wants(c, ws[i].attr, ws[i].value) {
      SignalWants(c, ws[i]);
    }
    if !Known(s.signals, Strip(c.name)) {
      NewSignalOk(c);
    }
  }

  lemma {:induction false} NewSignalOk(c: Call)
    requires c.AddSignal? && Keywords(c.kwargs, SIGNAL_PARAMS)
    ensures SetAll(map[], SignalWrites(NoSignalKeyword(c))).ok
  {
    var d := NoSignalKeyword(c);
    DroppedMembers(c.kwargs);
    assert forall i :: 0 <= i < |d.kwargs| ==> d.kwargs[i] in c.kwargs;
    SignalWritesDistinct(d);
    DistinctOkIff(map[], SignalWrites(d));
  }

  // ---------------------------------------------------------------------------------------------------------
  // Promotions
  // ---------------------------------------------------------------------------------------------------------

  /** The calls instantiate_child_ports makes. */
  ghost predicate Promotion(c: Call) {
    match c
    case SetCurBlk(_) => true
    case AddPort(_, signal, parentPort, parentSig, _, kwargs) =>
      signal == Nil && !parentPort && parentSig && |kwargs| == 1 && kwargs[0].attr == "dir"
    case AddSignal(_, _, kwargs) => kwargs == []
    case MissingAttribute => true
  }

  ghost predicate Promotions(cs: seq<Call>) {
    forall i :: 0 <= i < |cs| ==> Promotion(cs[i])
  }

  lemma {:induction false} PortsPromote(ps: seq<ChildPort>, n: nat)
    requires n <= |ps|
    ensures Promotions(PortsCalls(ps, n))
  {
    if n > 0 {
      PortsPromote(ps, n - 1);
    }
  }

  lemma {:induction false} BlocksPromote(bs: seq<Block>, n: nat)
    requires n <= |bs|
    ensures Promotions(BlocksCalls(bs, n))
  {
    if n > 0 {
      BlocksPromote(bs, n - 1);
      PortsPromote(bs[n - 1].ports, |bs[n - 1].ports|);
    }
  }

  ghost function Writes(c: Call): seq<Write> {
    if c.AddPort? then PortWrites(c) else if c.AddSignal? then SignalWrites(c) else []
  }

  ghost function KindOf(c: Call): Kind {
    if c.AddPort? then Ports else Signals
  }

  /** The record a call is about. */
  ghost function Target(s: State, c: Call): Attrs
    requires Adds(c)
  {
    Record(s.Of(KindOf(c)), Strip(c.name))
  }

  lemma {:induction false} PlainWrites(c: Call)
    requires Promotion(c)
    ensures Plain(Writes(c))
  {
    if c.AddPort? {
      var ws := Writes(c);
      assert |ws| == 6 && ws[0].attr == "name" && ws[1].attr == "parent_sig" && ws[2].attr == "parent_port";
      assert ws[3].attr == "width" && ws[4].attr == "signal" && ws[5].attr == "dir";
    }
  }

  /** A promotion is a sequence of writes to one record; the name is known afterwards if it went through. */
  lemma {:induction false} PromotionWrites(s: State, c: Call)
    requires Wf(s) && Promotion(c) && Adds(c)
    ensures Step(s, c).ok == SetAll(Target(s, c), Writes(c)).ok
    ensures Step(s, c).ok ==> Target(Step(s, c).state, c) == SetAll(Target(s, c), Writes(c)).attrs
    ensures Step(s, c).ok ==> Known(Step(s, c).state.Of(KindOf(c)), Strip(c.name))
    ensures forall k, n {:trigger Record(s.Of(k), n)} {:trigger Record(Step(s, c).state.Of(k), n)} ::
              !Targets(c, k, n) ==> Record(Step(s, c).state.Of(k), n) == Record(s.Of(k), n)
  {
    if c.AddPort? {
      PutEffect(s.ports, s.cur, Strip(c.name), PortWrites(c), PortWrites(c));
    } else {
      assert NoSignalKeyword(c) == c;
      PutEffect(s.signals, s.cur, Strip(c.name), SignalWrites(NoSignalKeyword(c)), SignalWrites(c));
    }
  }

  /** What went through is in place. */
  lemma {:induction false} SettledRightAfter(s: State, c: Call)
    requires Wf(s) && Promotion(c) && Adds(c) && Step(s, c).ok
    ensures Settled(Target(Step(s, c).state, c), Writes(c)) && Present(Target(Step(s, c).state, c), Writes(c))
  {
    PromotionWrites(s, c);
    PlainWrites(c);
    SettledAfter(Target(s, c), Writes(c), |Writes(c)|);
  }

  // ---------------------------------------------------------------------------------------------------------
  // Along a run without exceptions
  // ---------------------------------------------------------------------------------------------------------

  lemma {:induction false} RunToWf(s: State, cs: seq<Call>, n: nat)
    requires Wf(s) && n <= |cs|
    ensures Wf(RunTo(s, cs, n).state)
  {
    if n > 0 {
      RunToWf(s, cs, n - 1);
      StepKeepsWf(RunTo(s, cs, n - 1).state, cs[n - 1]);
    }
  }

  lemma {:induction false} PrefixOk(s: State, cs: seq<Call>, m: nat, n: nat)
    requires m <= n <= |cs| && RunTo(s, cs, n).ok
    ensures RunTo(s, cs, m).ok
  {
    if m < n {
      PrefixOk(s, cs, m, n - 1);
    }
  }

  lemma {:induction false} RunToKeeps(s: State, cs: seq<Call>, m: nat, n: nat, k: Kind)
    requires Wf(s) && m <= n <= |cs|
    ensures Keeps(RunTo(s, cs, m).state.Of(k), RunTo(s, cs, n).state.Of(k))
  {
    if m < n {
      RunToKeeps(s, cs, m, n - 1, k);
      RunToWf(s, cs, n - 1);
      StepKeeps(RunTo(s, cs, n - 1).state, cs[n - 1], k);
      KeepsTransitive(RunTo(s, cs, m).state.Of(k), RunTo(s, cs, n - 1).state.Of(k),
                      Step(RunTo(s, cs, n - 1).state, cs[n - 1]).state.Of(k));
    }
  }

  lemma {:induction false} KeepsTransitive(d: Dict, e: Dict, f: Dict)
    requires Keeps(d, e) && Keeps(e, f)
    ensures Keeps(d, f)
  {
    forall n ensures Extends(Record(d, n), Record(f, n)) {
      assert Extends(Record(d, n), Record(e, n)) && Extends(Record(e, n), Record(f, n));
      forall x | Get(Record(d, n), x) != Nil ensures Get(Record(f, n), x) == Get(Record(d, n), x) {
        assert Get(Record(e, n), x) == Get(Record(d, n), x);
      }
    }
  }

  /** Some write of the call puts v into attribute x. */
  ghost predicate Puts(c: Call, x: string, v: Value) {
    exists a :: 0 <= a < |Writes(c)| && Writes(c)[a] == Write(x, v)
  }

  ghost function Stored(s: State, k: Kind, n: string, x: string): Value {
    Get(Record(s.Of(k), n), x)
  }

  /** A call that gives an attribute a value wrote that value. */
  lemma {:induction false} StepOrigin(s: State, c: Call, k: Kind, n: string, x: string)
    requires Wf(s) && Promotion(c) && Step(s, c).ok
    requires Stored(s, k, n, x) == Nil && Stored(Step(s, c).state, k, n, x) != Nil
    ensures Targets(c, k, n) && Puts(c, x, Stored(Step(s, c).state, k, n, x))
  {
    if Adds(c) {
      PromotionWrites(s, c);
      AfterMerges(Target(s, c), Writes(c), |Writes(c)|);
    } else if c.SetCurBlk? && c.block !in s.ports {
      EnterEffect(s.Of(k), c.block);
    }
  }

  /** So does a run. */
  lemma {:induction false} RunOrigin(s: State, cs: seq<Call>, m: nat, n: nat, k: Kind, name: string, x: string)
      returns (j: nat)
    requires Wf(s) && Promotions(cs) && m <= n <= |cs| && RunTo(s, cs, n).ok
    requires Stored(RunTo(s, cs, m).state, k, name, x) == Nil && Stored(RunTo(s, cs, n).state, k, name, x) != Nil
    ensures m <= j < n && Targets(cs[j], k, name) && Puts(cs[j], x, Stored(RunTo(s, cs, n).state, k, name, x))
  {
    var p := RunTo(s, cs, n - 1);
    RunToWf(s, cs, n - 1);
    if Stored(p.state, k, name, x) != Nil {
      j := RunOrigin(s, cs, m, n - 1, k, name, x);
      StepKeeps(p.state, cs[n - 1], k);
      assert Extends(Record(p.state.Of(k), name), Record(Step(p.state, cs[n - 1]).state.Of(k), name));
    } else {
      j := n - 1;
      StepOrigin(p.state, cs[n - 1], k, name, x);
    }
  }

  // ---------------------------------------------------------------------------------------------------------
  // Mixed declarations
  // ---------------------------------------------------------------------------------------------------------

  /** Two promotions to the same name, one leaving the width or the direction open that the other sets. */
  ghost predicate Mixes(c: Call, c': Call)
    requires Promotion(c) && Promotion(c')
  {
    && Adds(c) && Adds(c') && KindOf(c) == KindOf(c') && Strip(c.name) == Strip(c'.name)
    && ((c.width == Nil && c'.width != Nil) || (c.AddPort? && c.kwargs[0].value == Nil && c'.kwargs[0].value != Nil))
  }

  ghost predicate NoMix(cs: seq<Call>)
    requires Promotions(cs)
  {
    forall i, j :: 0 <= i < |cs| && 0 <= j < |cs| ==> !Mixes(cs[i], cs[j])
  }

  /** The promotions of c leave open exactly what is None among its width and direction. */
  lemma {:induction false} OpenWrites(c: Call, x: string)
    requires Promotion(c) && Adds(c)
    ensures Puts(c, x, Nil) <==>
            (x == "width" && c.width == Nil) || (c.AddPort? && (x == "signal" || (x == "dir" && c.kwargs[0].value == Nil)))
  {
    var ws := Writes(c);
    assert ws[0] == Write("name", Text(Strip(c.name)));
    if c.AddPort? {
      assert |ws| == 6 && ws[1] == Write("parent_sig", Bool(false)) && ws[2] == Write("parent_port", Bool(false));
      assert ws[3] == Write("width", c.width) && ws[4] == Write("signal", Nil) && ws[5] == c.kwargs[0];
    } else {
      assert |ws| == 2 && ws[1] == Write("width", c.width);
    }
  }

  lemma {:induction false} ValueWrites(c: Call, x: string, v: Value)
    requires Promotion(c) && Adds(c) && v != Nil
    ensures x == "width" ==> (Puts(c, x, v) <==> c.width == v)
    ensures c.AddPort? && x == "dir" ==> (Puts(c, x, v) <==> c.kwargs[0].value == v)
    ensures c.AddPort? && x == "signal" ==> !Puts(c, x, v)
  {
    var ws := Writes(c);
    assert ws[0] == Write("name", Text(Strip(c.name)));
    if c.AddPort? {
      assert |ws| == 6 && ws[1].attr == "parent_sig" && ws[2].attr == "parent_port";
      assert ws[3] == Write("width", c.width) && ws[4] == Write("signal", Nil) && ws[5] == c.kwargs[0];
    } else {
      assert |ws| == 2 && ws[1] == Write("width", c.width);
    }
  }

  /** Mixing, in terms of writes. */
  lemma {:induction false} MixesIff(c: Call, c': Call)
    requires Promotion(c) && Promotion(c') && Adds(c) && Adds(c')
    requires KindOf(c) == KindOf(c') && Strip(c.name) == Strip(c'.name)
    ensures Mixes(c, c') <==> exists x, v :: Puts(c, x, Nil) && Puts(c', x, v) && v != Nil
  {
    if Mixes(c, c') {
      var x := if c.width == Nil && c'.width != Nil then "width" else "dir";
      var v := if c.width == Nil && c'.width != Nil then c'.width else c'.kwargs[0].value;
      OpenWrites(c, x);
      ValueWrites(c', x, v);
      assert Puts(c, x, Nil) && Puts(c', x, v);
    } else {
      forall x, v | Puts(c, x, Nil) && v != Nil ensures !Puts(c', x, v) {
        OpenWrites(c, x);
        ValueWrites(c', x, v);
      }
    }
  }

  // ---------------------------------------------------------------------------------------------------------
  // The second time
  // ---------------------------------------------------------------------------------------------------------

  /** Each write finds its attribute present, and either holding some value or still None as the write leaves it. */
  ghost predicate Inert(a: Attrs, ws: seq<Write>) {
    forall i :: 0 <= i < |ws| ==> ws[i].attr in a && (a[ws[i].attr] != Nil || ws[i].value == Nil)
  }

  /** Such writes change nothing, and go through exactly when they find their own values. */
  lemma {:induction false} InertWrites(a: Attrs, ws: seq<Write>, n: nat)
    requires n <= |ws| && Plain(ws) && Inert(a, ws)
    ensures After(a, ws, n).attrs == a
    ensures After(a, ws, n).ok <==> forall i :: 0 <= i < n ==> a[ws[i].attr] == ws[i].value
  {
    if n > 0 {
      InertWrites(a, ws, n - 1);
      assert ws[n - 1].attr != "comment";
      assert a[ws[n - 1].attr] == ws[n - 1].value ==> a[ws[n - 1].attr := ws[n - 1].value] == a;
    }
  }

  /** The call has been made before: its block or name is known, and its writes are inert. */
  ghost predicate Done(s: State, c: Call) {
    match c
    case SetCurBlk(b) => b in s.ports
    case MissingAttribute => false
    case _ => Known(s.Of(KindOf(c)), Strip(c.name)) && Inert(Target(s, c), Writes(c))
  }

  ghost predicate Again(s: State, c: Call) {
    Adds(c) ==> Settled(Target(s, c), Writes(c))
  }

  ghost predicate SameNets(s: State, t: State) {
    s.ports == t.ports && s.signals == t.signals
  }

  /** Making a call again. */
  lemma {:induction false} StepAgain(s: State, c: Call)
    requires Wf(s) && Promotion(c) && Done(s, c)
    ensures SameNets(s, Step(s, c).state)
    ensures Step(s, c).ok <==> Again(s, c)
  {
    if Adds(c) {
      var d, n := s.Of(KindOf(c)), Strip(c.name);
      PlainWrites(c);
      InertWrites(Target(s, c), Writes(c), |Writes(c)|);
      ReplaceSame(d, n);
    }
  }

  lemma {:induction false} ReplaceSame(d: Dict, n: string)
    requires Known(d, n)
    ensures Replace(d, Home(d, n), n, Record(d, n)) == d
  {
    var b := Home(d, n);
    assert d[b][n := d[b][n]] == d[b];
  }

  /** The current block makes no difference. */
  lemma {:induction false} StepAgainIn(s: State, t: State, c: Call)
    requires SameNets(s, t) && Wf(t) && Promotion(c) && Done(s, c)
    ensures SameNets(s, Step(t, c).state)
    ensures Step(t, c).ok <==> Again(s, c)
  {
    assert forall k :: s.Of(k) == t.Of(k);
    assert Done(t, c) && (Again(s, c) <==> Again(t, c));
    StepAgain(t, c);
  }

  ghost predicate AllAgain(s: State, cs: seq<Call>, n: nat)
    requires n <= |cs|
  {
    forall i {:trigger cs[i]} :: 0 <= i < n ==> Again(s, cs[i])
  }

  ghost predicate AllDone(s: State, cs: seq<Call>) {
    forall i {:trigger cs[i]} :: 0 <= i < |cs| ==> Done(s, cs[i])
  }

  lemma {:induction false} AllAgainNext(s: State, cs: seq<Call>, n: nat)
    requires 0 < n <= |cs|
    ensures AllAgain(s, cs, n) <==> AllAgain(s, cs, n - 1) && Again(s, cs[n - 1])
  {
  }

  lemma {:induction false} RunAgain(s: State, cs: seq<Call>, n: nat)
    requires Wf(s) && Promotions(cs) && n <= |cs| && AllDone(s, cs)
    ensures SameNets(s, RunTo(s, cs, n).state)
    ensures RunTo(s, cs, n).ok <==> AllAgain(s, cs, n)
  {
    if n > 0 {
      RunAgain(s, cs, n - 1);
      RunToWf(s, cs, n - 1);
      StepAgainIn(s, RunTo(s, cs, n - 1).state, cs[n - 1]);
      AllAgainNext(s, cs, n);
    }
  }

  lemma {:induction false} DoneRightAfter(s: State, c: Call)
    requires Wf(s) && Promotion(c) && Step(s, c).ok
    ensures Done(Step(s, c).state, c)
  {
    if Adds(c) {
      PromotionWrites(s, c);
      SettledRightAfter(s, c);
    }
  }

  lemma {:induction false} DoneStays(s: State, cs: seq<Call>, m: nat, n: nat, c: Call)
    requires Wf(s) && m <= n <= |cs| && Done(RunTo(s, cs, m).state, c)
    requires Promotion(c) && Promotions(cs) && (Adds(c) ==> Settled(Target(RunTo(s, cs, m).state, c), Writes(c)))
    ensures c.SetCurBlk? ==> Done(RunTo(s, cs, n).state, c)
    ensures Adds(c) ==> Known(RunTo(s, cs, n).state.Of(KindOf(c)), Strip(c.name))
    ensures Adds(c) ==> Present(Target(RunTo(s, cs, n).state, c), Writes(c))
  {
    var t, t' := RunTo(s, cs, m).state, RunTo(s, cs, n).state;
    BlocksStay(s, cs, m, n);
    if Adds(c) {
      var k, name := KindOf(c), Strip(c.name);
      RunToKeeps(s, cs, m, n, k);
      assert Lives(t'.Of(k), Home(t.Of(k), name), name);
      assert Extends(Record(t.Of(k), name), Record(t'.Of(k), name));
    }
  }

  lemma {:induction false} BlocksStay(s: State, cs: seq<Call>, m: nat, n: nat)
    requires Wf(s) && m <= n <= |cs|
    ensures RunTo(s, cs, m).state.ports.Keys <= RunTo(s, cs, n).state.ports.Keys
  {
    if m < n {
      BlocksStay(s, cs, m, n - 1);
      RunToWf(s, cs, n - 1);
      var t, c := RunTo(s, cs, n - 1).state, cs[n - 1];
      if c.AddPort? {
        PutEffect(t.ports, t.cur, Strip(c.name), PortWrites(c), PortWrites(c));
      }
    }
  }

  /** A value that a call wrote is there in the end. */
  lemma {:induction false} WrittenStays(s: State, cs: seq<Call>, i: nat, x: string, v: Value)
    requires Wf(s) && Promotions(cs) && Run(s, cs).ok && i < |cs| && Adds(cs[i]) && Puts(cs[i], x, v) && v != Nil
    ensures Get(Target(Run(s, cs).state, cs[i]), x) == v
  {
    var c := cs[i];
    var k, name := KindOf(c), Strip(c.name);
    PrefixOk(s, cs, i + 1, |cs|);
    RunToWf(s, cs, i);
    SettledRightAfter(RunTo(s, cs, i).state, c);
    RunToKeeps(s, cs, i + 1, |cs|, k);
    assert Extends(Record(RunTo(s, cs, i + 1).state.Of(k), name), Record(Run(s, cs).state.Of(k), name));
  }

  /** A call that left something open finds a value in the end exactly when another call for the name supplied one. */
  lemma {:induction false} OpenFilledIff(s: State, cs: seq<Call>, i: nat, x: string)
    requires Wf(s) && Promotions(cs) && Run(s, cs).ok && i < |cs| && Adds(cs[i]) && Puts(cs[i], x, Nil)
    ensures Get(Target(Run(s, cs).state, cs[i]), x) != Nil <==>
            exists j, v :: 0 <= j < |cs| && Targets(cs[j], KindOf(cs[i]), Strip(cs[i].name)) && Puts(cs[j], x, v) && v != Nil
  {
    var c := cs[i];
    var k, name := KindOf(c), Strip(c.name);
    if Get(Target(Run(s, cs).state, c), x) != Nil {
      PrefixOk(s, cs, i + 1, |cs|);
      RunToWf(s, cs, i);
      SettledRightAfter(RunTo(s, cs, i).state, c);
      assert Stored(RunTo(s, cs, i + 1).state, k, name, x) == Nil;
      var j := RunOrigin(s, cs, i + 1, |cs|, k, name, x);
    }
    if j, v :| 0 <= j < |cs| && Targets(cs[j], k, name) && Puts(cs[j], x, v) && v != Nil {
      WrittenStays(s, cs, j, x, v);
    }
  }

  /** After a run that went through, every call is done. */
  lemma {:induction false} StaysDone(s: State, cs: seq<Call>, i: nat)
    requires Wf(s) && Promotions(cs) && Run(s, cs).ok && i < |cs|
    ensures Done(Run(s, cs).state, cs[i])
  {
    var c := cs[i];
    PrefixOk(s, cs, i + 1, |cs|);
    RunToWf(s, cs, i);
    DoneRightAfter(RunTo(s, cs, i).state, c);
    if Adds(c) {
      SettledRightAfter(RunTo(s, cs, i).state, c);
    }
    DoneStays(s, cs, i + 1, |cs|, c);
    if Adds(c) {
      ValuesStay(s, cs, i);
    }
  }

  lemma {:induction false} ValuesStay(s: State, cs: seq<Call>, i: nat)
    requires Wf(s) && Promotions(cs) && Run(s, cs).ok && i < |cs| && Adds(cs[i])
    ensures var c := cs[i];
            forall a :: 0 <= a < |Writes(c)| && Writes(c)[a].value != Nil ==>
              Get(Target(Run(s, cs).state, c), Writes(c)[a].attr) != Nil
  {
    var c := cs[i];
    var ws := Writes(c);
    forall a | 0 <= a < |ws| && ws[a].value != Nil ensures Get(Target(Run(s, cs).state, c), ws[a].attr) != Nil {
      assert Puts(c, ws[a].attr, ws[a].value);
      WrittenStays(s, cs, i, ws[a].attr, ws[a].value);
    }
  }

  /** One call goes through again exactly when nothing it left open was supplied by another. */
  lemma {:induction false} AgainIff(s: State, cs: seq<Call>, i: nat)
    requires Wf(s) && Promotions(cs) && Run(s, cs).ok && i < |cs|
    ensures Again(Run(s, cs).state, cs[i]) <==> forall j :: 0 <= j < |cs| ==> !Mixes(cs[i], cs[j])
  {
    var c, t := cs[i], Run(s, cs).state;
    if Adds(c) {
      forall x ensures Puts(c, x, Nil) ==>
          (Get(Target(t, c), x) != Nil <==>
            exists j, v :: 0 <= j < |cs| && Targets(cs[j], KindOf(c), Strip(c.name)) && Puts(cs[j], x, v) && v != Nil)
      {
        if Puts(c, x, Nil) {
          OpenFilledIff(s, cs, i, x);
        }
      }
      if j :| 0 <= j < |cs| && Mixes(c, cs[j]) {
        MixesIff(c, cs[j]);
        var x, v :| Puts(c, x, Nil) && Puts(cs[j], x, v) && v != Nil;
        assert Get(Target(t, c), x) != Nil;
      } else {
        var ws := Writes(c);
        forall a | 0 <= a < |ws| ensures Get(Target(t, c), ws[a].attr) == ws[a].value {
          var x := ws[a].attr;
          assert Puts(c, x, ws[a].value);
          if ws[a].value != Nil {
            WrittenStays(s, cs, i, x, ws[a].value);
          } else if Get(Target(t, c), x) != Nil {
            var j, v :| 0 <= j < |cs| && Targets(cs[j], KindOf(c), Strip(c.name)) && Puts(cs[j], x, v) && v != Nil;
            MixesIff(c, cs[j]);
          }
        }
      }
    }
  }

  /** A second run of the same promotions never changes a port or a signal, and raises nothing exactly when no name was
      promoted both with and without a width or a direction. */
  lemma {:induction false} SecondRun(s: State, cs: seq<Call>)
    requires Wf(s) && Promotions(cs) && Run(s, cs).ok
    ensures SameNets(Run(s, cs).state, Run(Run(s, cs).state, cs).state)
    ensures Run(Run(s, cs).state, cs).ok <==> NoMix(cs)
  {
    var t := Run(s, cs).state;
    RunToWf(s, cs, |cs|);
    forall i | 0 <= i < |cs|
      ensures Done(t, cs[i])
      ensures Again(t, cs[i]) <==> forall j :: 0 <= j < |cs| ==> !Mixes(cs[i], cs[j])
    {
      StaysDone(s, cs, i);
      AgainIff(s, cs, i);
    }
    RunAgain(t, cs, |cs|);
  }

  /** instantiate_child_ports a second time: exactly when it raises nothing. */
  lemma {:induction false} SecondInstantiation(s: State, bs: seq<Block>)
    requires Wf(s) && Run(s, BlocksCalls(bs, |bs|)).ok
    ensures var t := Run(s, BlocksCalls(bs, |bs|)).state;
            SameNets(t, Run(t, BlocksCalls(bs, |bs|)).state)
    ensures Promotions(BlocksCalls(bs, |bs|))
    ensures var t := Run(s, BlocksCalls(bs, |bs|)).state;
            Run(t, BlocksCalls(bs, |bs|)).ok <==> NoMix(BlocksCalls(bs, |bs|))
  {
    BlocksPromote(bs, |bs|);
    SecondRun(s, BlocksCalls(bs, |bs|));
  }

  /** All child ports have a width and a direction. */
  ghost predicate FullyDeclared(bs: seq<Block>) {
    forall i, j :: 0 <= i < |bs| && 0 <= j < |bs[i].ports| ==>
      bs[i].ports[j].width != Nil && bs[i].ports[j].dir != Some(Nil)
  }

  ghost predicate Closed(cs: seq<Call>) {
    forall i :: 0 <= i < |cs| && Adds(cs[i]) ==>
      cs[i].width != Nil && forall a :: 0 <= a < |cs[i].kwargs| ==> cs[i].kwargs[a].value != Nil
  }

  lemma {:induction false} PortsClosed(ps: seq<ChildPort>, n: nat)
    requires n <= |ps| && forall j :: 0 <= j < |ps| ==> ps[j].width != Nil && ps[j].dir != Some(Nil)
    ensures Closed(PortsCalls(ps, n))
  {
    if n > 0 {
      PortsClosed(ps, n - 1);
    }
  }

  lemma {:induction false} BlocksClosed(bs: seq<Block>, n: nat)
    requires n <= |bs| && FullyDeclared(bs)
    ensures Closed(BlocksCalls(bs, n))
  {
    if n > 0 {
      BlocksClosed(bs, n - 1);
      PortsClosed(bs[n - 1].ports, |bs[n - 1].ports|);
    }
  }

  /** With all widths and directions set, instantiating again raises nothing and changes nothing. */
  lemma {:induction false} DeclaredIdempotent(s: State, bs: seq<Block>)
    requires Wf(s) && FullyDeclared(bs) && Run(s, BlocksCalls(bs, |bs|)).ok
    ensures var t := Run(s, BlocksCalls(bs, |bs|)).state;
            Run(t, BlocksCalls(bs, |bs|)).ok && SameNets(t, Run(t, BlocksCalls(bs, |bs|)).state)
  {
    SecondInstantiation(s, bs);
    BlocksClosed(bs, |bs|);
  }

  /** Two child ports on one signal, the first without a width: the first instantiation completes, the second raises. */
  lemma {:induction false} MixedWidthRaisesAgain()
    ensures var p, q := ChildPort("x", Nil, None, true, false), ChildPort("x", Num(8), None, true, false);
            var cs := BlocksCalls([Block("default", [p, q])], 1);
            Run(Initial(), cs).ok && !Run(Run(Initial(), cs).state, cs).ok
  {
    var p, q := ChildPort("x", Nil, None, true, false), ChildPort("x", Num(8), None, true, false);
    var b := Block("default", [p, q]);
    var cs := BlocksCalls([b], 1);
    var c, c' := SignalCall(p), SignalCall(q);
    assert cs == [Call.SetCurBlk("default"), c, c'] by {
      assert PortsCalls(b.ports, 0) == [] && PortsCalls(b.ports, 1) == [c] && PortsCalls(b.ports, 2) == [c, c'];
      assert BlocksCalls([b], 0) == [];
    }
    TwoWidths(c, c');
    BlocksPromote([b], 1);
    ThreeCalls(Initial(), cs);
    SecondRun(Initial(), cs);
    assert Mixes(cs[1], cs[2]);
  }

  lemma {:induction false} ThreeCalls(s: State, cs: seq<Call>)
    requires |cs| == 3 && Step(s, cs[0]) == Stepped(s, true) && Step(s, cs[1]).ok
    ensures Run(s, cs) == Step(Step(s, cs[1]).state, cs[2])
  {
    assert RunTo(s, cs, 0) == Stepped(s, true);
    assert RunTo(s, cs, 1) == Stepped(s, true);
    assert RunTo(s, cs, 2) == Step(s, cs[1]);
  }

  lemma {:induction false} TwoWidths(c: Call, c': Call)
    requires c == Call.AddSignal("x", Nil, []) && c' == Call.AddSignal("x", Num(8), [])
    ensures Step(Initial(), c).ok && Step(Step(Initial(), c).state, c').ok
  {
    var s := Initial();
    PromotionWrites(s, c);
    WritesSucceedIff(Target(s, c), Writes(c), |Writes(c)|);
    assert Target(s, c) == map[];
    var t := Step(s, c).state;
    StepKeepsWf(s, c);
    PromotionWrites(t, c');
    SettledRightAfter(s, c);
    var ws := Writes(c');
    assert ws[0] == Writes(c)[0] && Writes(c)[1] == Write("width", Nil);
    WritesSucceedIff(Target(t, c'), ws, |ws|);
  }
}

/** Tcl commands collected per build stage and assembled in stage order. */
module TclStages {

  import opened Text

  /** One call of add_tcl_cmd. The stages are numbered in the order eval_tcl lists them. */
  datatype Command = Command(stage: nat, text: string)

  const INIT := 0
  const PRE_SYNTH := 1
  const SYNTH := 2
  const POST_SYNTH := 3
  const PRE_IMPL := 4
  const IMPL := 5
  const POST_IMPL := 6
  const PRE_BITGEN := 7
  const BITGEN := 8
  const POST_BITGEN := 9
  const PROMGEN := 10
  const STAGES := 11

  function Texts(cs: seq<Command>): (rows: seq<string>)
    ensures |rows| == |cs|
  {
    seq(|cs|, i requires 0 <= i < |cs| => cs[i].text + "\n")
  }

  /** The text a list of commands writes. */
  function Script(cs: seq<Command>): string {
    Concat(Texts(cs))
  }

  /** The commands of one stage, in call order. */
  function Only(cs: seq<Command>, stage: nat): seq<Command> {
    if cs == [] then []
    else Only(cs[..|cs| - 1], stage) + (if cs[|cs| - 1].stage == stage then [cs[|cs| - 1]] else [])
  }

  /** The texts of the first n stages, one after the other. */
  function Joined(texts: seq<string>, n: nat): string
    requires n <= |texts|
  {
    if n == 0 then "" else Joined(texts, n - 1) + texts[n - 1]
  }

  /** The commands of stages below n, stage by stage. */
  ghost function Partition(cs: seq<Command>, n: nat): seq<Command> {
    if n == 0 then [] else Partition(cs, n - 1) + Only(cs, n - 1)
  }

  /** The text collected for every stage is that of its commands. */
  ghost predicate Collected(texts: seq<string>, log: seq<Command>) {
    |texts| == STAGES && forall k :: 0 <= k < STAGES ==> texts[k] == Script(Only(log, k))
  }

  class Backend {
    /** tcl_cmds: the text collected for each of the eleven stages. */
    var tclCmds: seq<string>
    /** The calls that went through. */
    ghost var log: seq<Command>

    ghost predicate Valid()
      reads this
    {
      Collected(tclCmds, log)
    }

    constructor ()
      ensures Valid() && log == []
    {
      tclCmds := ["", "", "", "", "", "", "", "", "", "", ""];
      log := [];
    }

    /** An unknown stage raises. */
    method AddTclCmd(cmd: string, stage: nat) returns (ok: bool)
      requires Valid()
      modifies this
      ensures Valid() && ok == (stage < STAGES)
      ensures log == if ok then old(log) + [Command(stage, cmd)] else old(log)
    {
      if stage >= |tclCmds| {
        return false;
      }
      tclCmds := tclCmds[stage := tclCmds[stage] + cmd];
      tclCmds := tclCmds[stage := tclCmds[stage] + "\n"];
      log := log + [Command(stage, cmd)];
      CollectedNext(old(tclCmds), old(log), Command(stage, cmd));
      ok := true;
    }

    /** One more stage. */
    method Append(before: string, stage: nat) returns (s: string)
      requires stage < |tclCmds| && before == Joined(tclCmds, stage)
      ensures s == Joined(tclCmds, stage + 1)
    {
      s := before + tclCmds[stage];
    }

    /** The script is that of the calls, stably partitioned by stage. */
    method EvalTcl() returns (s: string)
      requires Valid()
      ensures s == Script(Partition(log, STAGES))
    {
      s := "";
      s := Append(s, INIT);
      s := Append(s, PRE_SYNTH);
      s := Append(s, SYNTH);
      s := Append(s, POST_SYNTH);
      s := Append(s, PRE_IMPL);
      s := Append(s, IMPL);
      s := Append(s, POST_IMPL);
      s := Append(s, PRE_BITGEN);
      s := Append(s, BITGEN);
      s := Append(s, POST_BITGEN);
      s := Append(s, PROMGEN);
      JoinedIsPartition(tclCmds, log, STAGES);
    }
  }

  lemma {:induction false} ScriptAppend(a: seq<Command>, b: seq<Command>)
    ensures Script(a + b) == Script(a) + Script(b)
  {
    assert Texts(a + b) == Texts(a) + Texts(b);
    ConcatAppend(Texts(a), Texts(b));
  }

  lemma {:induction false} ScriptSnoc(cs: seq<Command>, c: Command)
    ensures Script(cs + [c]) == Script(cs) + (c.text + "\n")
  {
    assert Texts(cs + [c]) == Texts(cs) + [c.text + "\n"];
    ConcatSnoc(Texts(cs), c.text + "\n");
  }

  /** Commands without newlines come out one on each line. */
  lemma {:induction false} ScriptLines(cs: seq<Command>)
    requires forall i :: 0 <= i < |cs| ==> Free(cs[i].text, '\n')
    ensures |Lines(Script(cs))| == |cs|
    ensures forall i :: 0 <= i < |cs| ==> Lines(Script(cs))[i] == cs[i].text + "\n"
  {
    var rows := Texts(cs);
    forall i | 0 <= i < |rows| ensures IsLine(rows[i]) && rows[i] == cs[i].text + "\n" {
      assert rows[i][..|rows[i]| - 1] == cs[i].text;
    }
    LinesConcat(rows, "");
    assert Concat(rows) + "" == Concat(rows) && rows + [] == rows;
  }

  lemma {:induction false} OnlySnoc(cs: seq<Command>, c: Command, stage: nat)
    ensures Only(cs + [c], stage) == Only(cs, stage) + (if c.stage == stage then [c] else [])
  {
    assert (cs + [c])[..|cs|] == cs;
  }

  lemma {:induction false} CollectedNext(texts: seq<string>, log: seq<Command>, c: Command)
    requires Collected(texts, log) && c.stage < STAGES
    ensures Collected(texts[c.stage := texts[c.stage] + c.text + "\n"], log + [c])
  {
    var after := texts[c.stage := texts[c.stage] + c.text + "\n"];
    forall k | 0 <= k < STAGES ensures after[k] == Script(Only(log + [c], k)) {
      OnlySnoc(log, c, k);
      if k == c.stage {
        ScriptSnoc(Only(log, k), c);
        Regroup(texts[k], c.text, "\n");
      } else {
        assert Only(log, k) + [] == Only(log, k);
      }
    }
  }

  lemma {:induction false} JoinedIsPartition(texts: seq<string>, log: seq<Command>, n: nat)
    requires Collected(texts, log) && n <= STAGES
    ensures Joined(texts, n) == Script(Partition(log, n))
  {
    if n > 0 {
      JoinedIsPartition(texts, log, n - 1);
      ScriptAppend(Partition(log, n - 1), Only(log, n - 1));
    }
  }

  // ---------------------------------------------------------------------------------------------------------
  // What makes the partition stable
  // ---------------------------------------------------------------------------------------------------------

  lemma {:induction false} OnlyAppend(a: seq<Command>, b: seq<Command>, stage: nat)
    ensures Only(a + b, stage) == Only(a, stage) + Only(b, stage)
    decreases |b|
  {
    if b == [] {
      assert a + b == a;
    } else {
      var c, rest := b[|b| - 1], b[..|b| - 1];
      var picked := if c.stage == stage then [c] else [];
      OnlyAppend(a, rest, stage);
      OnlySnoc(a + rest, c, stage);
      OnlySnoc(rest, c, stage);
      assert rest + [c] == b && (a + rest) + [c] == a + b;
      Regroup(Only(a, stage), Only(rest, stage), picked);
    }
  }

  lemma {:induction false} OnlyStage(cs: seq<Command>, stage: nat)
    ensures forall i :: 0 <= i < |Only(cs, stage)| ==> Only(cs, stage)[i].stage == stage
  {
    if cs != [] {
      OnlyStage(cs[..|cs| - 1], stage);
    }
  }

  /** Selecting from commands that are all of one stage. */
  lemma {:induction false} OnlyUniform(cs: seq<Command>, s: nat, t: nat)
    requires forall i :: 0 <= i < |cs| ==> cs[i].stage == s
    ensures Only(cs, t) == if s == t then cs else []
  {
    if cs != [] {
      var init, last := cs[..|cs| - 1], cs[|cs| - 1];
      OnlyUniform(init, s, t);
      assert init + [last] == cs;
    }
  }

  lemma {:induction false} PartitionStep(cs: seq<Command>, n: nat, stage: nat)
    ensures Only(Partition(cs, n + 1), stage) ==
            Only(Partition(cs, n), stage) + (if stage == n then Only(cs, stage) else [])
  {
    OnlyAppend(Partition(cs, n), Only(cs, n), stage);
    OnlyTwice(cs, n, stage);
  }

  /** Call order is kept within each stage, and nothing is lost or repeated. */
  lemma {:induction false} PartitionStable(cs: seq<Command>, n: nat, stage: nat)
    ensures Only(Partition(cs, n), stage) == if stage < n then Only(cs, stage) else []
  {
    if n > 0 {
      PartitionStable(cs, n - 1, stage);
      PartitionStep(cs, n - 1, stage);
    }
  }

  lemma {:induction false} OnlyTwice(cs: seq<Command>, s: nat, t: nat)
    ensures Only(Only(cs, s), t) == if s == t then Only(cs, s) else []
  {
    OnlyStage(cs, s);
    OnlyUniform(Only(cs, s), s, t);
  }

  /** Stages come in order. */
  lemma {:induction false} PartitionOrdered(cs: seq<Command>, n: nat)
    ensures forall i :: 0 <= i < |Partition(cs, n)| ==> Partition(cs, n)[i].stage < n
    ensures forall i, j :: 0 <= i < j < |Partition(cs, n)| ==> Partition(cs, n)[i].stage <= Partition(cs, n)[j].stage
  {
    if n > 0 {
      PartitionOrdered(cs, n - 1);
      OnlyStage(cs, n - 1);
    }
  }

  lemma {:induction false} OnlyCount(cs: seq<Command>, c: Command)
    ensures multiset(Only(cs, c.stage))[c] == multiset(cs)[c]
  {
    if cs != [] {
      var init, last := cs[..|cs| - 1], cs[|cs| - 1];
      OnlyCount(init, c);
      assert cs == init + [last];
    }
  }

  /** The partition of the calls is a permutation of them. */
  lemma {:induction false} PartitionPermutes(cs: seq<Command>)
    requires forall i :: 0 <= i < |cs| ==> cs[i].stage < STAGES
    ensures multiset(Partition(cs, STAGES)) == multiset(cs)
  {
    forall c: Command ensures multiset(Partition(cs, STAGES))[c] == multiset(cs)[c] {
      PartitionStable(cs, STAGES, c.stage);
      OnlyCount(cs, c);
      OnlyCount(Partition(cs, STAGES), c);
      if c.stage >= STAGES {
        assert c !in cs;
      }
    }
  }
}

/** Recursive expansion of yellow blocks into their children. */
module Expansion {

  /** A yellow block and the blocks its gen_children returns. */
  datatype Tree = Node(id: int, children: seq<Tree>)

  /** All children of a list of parents, in order. */
  function Children(ts: seq<Tree>): seq<Tree> {
    if ts == [] then [] else ts[0].children + Children(ts[1..])
  }

  ghost function Size(t: Tree): nat {
    1 + Sizes(t.children)
  }

  ghost function Sizes(ts: seq<Tree>): nat {
    if ts == [] then 0 else Size(ts[0]) + Sizes(ts[1..])
  }

  lemma {:induction false} SizesAppend(a: seq<Tree>, b: seq<Tree>)
    ensures Sizes(a + b) == Sizes(a) + Sizes(b)
  {
    if a == [] {
      assert a + b == b;
    } else {
      assert (a + b)[1..] == a[1..] + b;
      SizesAppend(a[1..], b);
    }
  }

  /** Each generation is what is left after taking the parents away. */
  lemma {:induction false} ChildrenSize(ts: seq<Tree>)
    ensures Sizes(Children(ts)) + |ts| == Sizes(ts)
  {
    if ts != [] {
      ChildrenSize(ts[1..]);
      SizesAppend(ts[0].children, Children(ts[1..]));
    }
  }

  lemma {:induction false} ChildrenAppend(a: seq<Tree>, b: seq<Tree>)
    ensures Children(a + b) == Children(a) + Children(b)
  {
    if a == [] {
      assert a + b == b;
    } else {
      assert (a + b)[1..] == a[1..] + b;
      ChildrenAppend(a[1..], b);
    }
  }

  /** The generations after ts, one after the other. */
  ghost function Levels(ts: seq<Tree>): seq<Tree>
    decreases Sizes(ts)
  {
    var kids := Children(ts);
    ChildrenSize(ts);
    if kids == [] then [] else kids + Levels(kids)
  }

  lemma {:induction false} NextLevel(a: seq<Tree>, b: seq<Tree>, from: seq<Tree>)
    requires Children(from) != []
    ensures (a + Children(from)) + Levels(Children(from)) == a + Levels(from)
    ensures (b + from) + Children(from) + Levels(Children(from)) == b + from + Levels(from)
  {
    ChildrenSize(from);
  }

  class Toolflow {
    /** The list that grows. */
    var periphObjs: seq<Tree>
    /** The blocks whose gen_children has been called, in order. */
    var invited: seq<Tree>

    constructor (blocks: seq<Tree>)
      ensures periphObjs == blocks && invited == []
    {
      periphObjs := blocks;
      invited := [];
    }

    /** gen_children of every parent. */
    method Procreate(parents: seq<Tree>) returns (children: seq<Tree>)
      modifies this`invited
      ensures children == Children(parents) && invited == old(invited) + parents
    {
      children := [];
      var i := 0;
      while i < |parents|
        invariant 0 <= i <= |parents|
        invariant children == Children(parents[..i])
        invariant invited == old(invited) + parents[..i]
      {
        ChildrenAppend(parents[..i], [parents[i]]);
        assert parents[..i] + [parents[i]] == parents[..i + 1];
        assert Children([parents[i]]) == parents[i].children + Children([]);
        invited := invited + [parents[i]];
        children := children + parents[i].children;
        i := i + 1;
      }
      assert parents[..i] == parents;
    }

    /** An empty list of parents stands for the whole population. */
    method ExpandChildren(parents: seq<Tree>, recursive: bool)
      modifies this
      ensures var from := if parents == [] then old(periphObjs) else parents;
              && periphObjs == old(periphObjs) + (if recursive then Levels(from) else Children(from))
              && invited == old(invited) + from + (if recursive then Levels(from) else [])
      decreases Sizes(if parents == [] then periphObjs else parents)
    {
      var from := if parents == [] then periphObjs else parents;
      var children := Procreate(from);
      if children == [] {
        return;
      }
      periphObjs := periphObjs + children;
      if recursive {
        ChildrenSize(from);
        NextLevel(old(periphObjs), old(invited), from);
        ExpandChildren(children, true);
      }
    }
  }

  // ---------------------------------------------------------------------------------------------------------
  // Level order
  // ---------------------------------------------------------------------------------------------------------

  lemma {:induction false} ServeSize(queue: seq<Tree>)
    requires queue != []
    ensures Sizes(queue[1..] + queue[0].children) + 1 == Sizes(queue)
  {
    SizesAppend(queue[1..], queue[0].children);
    assert Size(queue[0]) == 1 + Sizes(queue[0].children);
  }

  /** Breadth-first traversal with a queue. */
  ghost function BreadthFirst(queue: seq<Tree>): seq<Tree>
    decreases Sizes(queue)
  {
    if queue == [] then []
    else
      ServeSize(queue);
      [queue[0]] + BreadthFirst(queue[1..] + queue[0].children)
  }

  /** Serving the front of the queue. */
  lemma {:induction false} ServeFront(front: seq<Tree>, back: seq<Tree>)
    ensures BreadthFirst(front + back) == front + BreadthFirst(back + Children(front))
    decreases |front|
  {
    if front == [] {
      assert front + back == back && back + Children(front) == back;
    } else {
      var kids := front[0].children;
      assert (front + back)[1..] + kids == front[1..] + (back + kids);
      ServeFront(front[1..], back + kids);
      assert (back + kids) + Children(front[1..]) == back + Children(front);
      assert front == [front[0]] + front[1..];
    }
  }

  /** The population followed by its generations is the queue order. */
  lemma {:induction false} LevelsAreBreadthFirst(ts: seq<Tree>)
    ensures ts + Levels(ts) == BreadthFirst(ts)
    decreases Sizes(ts)
  {
    var kids := Children(ts);
    ServeFront(ts, []);
    assert ts + [] == ts && [] + kids == kids;
    ChildrenSize(ts);
    if kids != [] {
      LevelsAreBreadthFirst(kids);
    }
  }

  // ---------------------------------------------------------------------------------------------------------
  // Every node once
  // ---------------------------------------------------------------------------------------------------------

  /** All nodes below and including t, parents before children. */
  ghost function Preorder(t: Tree): seq<Tree> {
    [t] + Preorders(t.children)
  }

  ghost function Preorders(ts: seq<Tree>): seq<Tree> {
    if ts == [] then [] else Preorder(ts[0]) + Preorders(ts[1..])
  }

  lemma {:induction false} PreordersAppend(a: seq<Tree>, b: seq<Tree>)
    ensures Preorders(a + b) == Preorders(a) + Preorders(b)
  {
    if a == [] {
      assert a + b == b;
    } else {
      assert (a + b)[1..] == a[1..] + b;
      PreordersAppend(a[1..], b);
    }
  }

  /** Breadth-first traversal meets exactly the nodes of the forest, each as often as it occurs. */
  lemma {:induction false} EachNodeOnce(queue: seq<Tree>)
    ensures multiset(BreadthFirst(queue)) == multiset(Preorders(queue))
    decreases Sizes(queue)
  {
    if queue != [] {
      var t, rest := queue[0], queue[1..];
      ServeSize(queue);
      EachNodeOnce(rest + t.children);
      PreordersAppend(rest, t.children);
    }
  }

  lemma {:induction false} WholeOrder(blocks: seq<Tree>)
    ensures blocks + Levels(blocks) == BreadthFirst(blocks) && [] + blocks + Levels(blocks) == BreadthFirst(blocks)
    ensures multiset(BreadthFirst(blocks)) == multiset(Preorders(blocks))
  {
    LevelsAreBreadthFirst(blocks);
    EachNodeOnce(blocks);
    assert [] + blocks == blocks;
  }

  /** Expanding a population without given parents ends with the breadth-first order of the forest, every block of which
      has been invited exactly once, in that order. */
  method ExpandAll(blocks: seq<Tree>) returns (population: seq<Tree>, invited: seq<Tree>)
    ensures population == BreadthFirst(blocks) && invited == population
    ensures multiset(population) == multiset(Preorders(blocks))
  {
    var flow := new Toolflow(blocks);
    flow.ExpandChildren([], true);
    WholeOrder(blocks);
    population, invited := flow.periphObjs, flow.invited;
  }
}

/**
 The import-cycle checker: strongly connected components by depth-first search with low
 links, and the verdict drawn from them.
 */
module ImportCycles {
  import opened Graphs
  import opened TarjanState
  import opened Collections

  /** The search stops with an exception when a popped name is missing or empty. */
  datatype SccResult = Components(value: seq<seq<Node>>) | StackUnderflow

  /** Exactly the cyclic components, each once and without repeated members. */
  ghost predicate ReportsCyclicSccs(g: Graph, cs: seq<seq<Node>>) {
    && (forall i :: 0 <= i < |cs| ==> NoDuplicates(cs[i]) && IsCyclicScc(g, Members(cs[i])))
    && (forall i, j :: 0 <= i < j < |cs| ==> Members(cs[i]) !! Members(cs[j]))
    && (forall c :: IsCyclicScc(g, c) ==> exists i :: 0 <= i < |cs| && Members(cs[i]) == c)
  }

  class SccSearch {
    const graph: Graph
    var nextIndex: nat
    var stack: seq<Node>
    var onStack: set<Node>
    var indexByNode: map<Node, nat>
    var lowLinkByNode: map<Node, nat>
    var components: seq<seq<Node>>

    ghost function State(): Dfs
      reads this
    {
      Dfs(nextIndex, stack, onStack, indexByNode, lowLinkByNode, components)
    }

    constructor (graph: Graph)
      ensures this.graph == graph && State() == START
    {
      this.graph := graph;
      nextIndex, stack, onStack := 0, [], {};
      indexByNode, lowLinkByNode, components := map[], map[], [];
    }

    /** Visits `node`; `open` is the call stack.  An exception can only come from an empty name. */
    method Visit(node: Node, ghost open: set<Node>) returns (threw: bool)
      requires Inv(graph, State(), open)
      requires node in Nodes(graph) && node !in indexByNode
      requires forall a :: a in open ==> Reach(graph, a, node)
      modifies this
      ensures threw ==> "" in Nodes(graph)
      ensures !threw ==> Visited(graph, old(State()), State(), open, node)
      decreases Nodes(graph) - indexByNode.Keys, 0
    {
      ghost var before := State();
      EnterNode(node);
      EnterExploring(graph, before, open, node);

      for i := 0 to |Succ(graph, node)|
        invariant Exploring(graph, before, State(), open, node, i)
      {
        ExploringShrinks(graph, before, State(), open, node, i);
        threw := ExploreImport(before, node, i, open);
        if threw {
          return;
        }
      }

      NodeStacked(graph, before, State(), open, node, |Succ(graph, node)|);
      if lowLinkByNode[node] != indexByNode[node] {
        LeaveVisited(graph, before, State(), open, node);
        return false;
      }
      threw := CloseComponent(before, node, open);
    }

    method EnterNode(node: Node)
      modifies this
      ensures State() == Enter(old(State()), node)
    {
      indexByNode := indexByNode[node := nextIndex];
      lowLinkByNode := lowLinkByNode[node := nextIndex];
      nextIndex := nextIndex + 1;
      stack := stack + [node];
      onStack := onStack + {node};
    }

    /** The loop body: looks at import `i` of `node`. */
    method ExploreImport(ghost before: Dfs, node: Node, i: nat, ghost open: set<Node>) returns (threw: bool)
      requires Exploring(graph, before, State(), open, node, i) && i < |Succ(graph, node)|
      modifies this
      ensures threw ==> "" in Nodes(graph)
      ensures !threw ==> Exploring(graph, before, State(), open, node, i + 1)
      decreases Nodes(graph) - indexByNode.Keys, 1
    {
      var next := Succ(graph, node)[i];
      ghost var s := State();
      NodeStacked(graph, before, s, open, node, i);
      threw := false;
      if next !in indexByNode {
        NextIsReached(graph, before, s, open, node, i);
        threw := Visit(next, open + {node});
        if threw {
          return;
        }
        ExploreTreeEdge(graph, before, s, State(), open, node, i);
        LowerLowLink(node, lowLinkByNode[next]);
      } else if next in onStack {
        ExploreStackedEdge(graph, before, s, open, node, i);
        LowerLowLink(node, indexByNode[next]);
      } else {
        ExploreFinishedEdge(graph, before, s, open, node, i);
      }
    }

    method LowerLowLink(node: Node, bound: nat)
      requires node in lowLinkByNode
      modifies this`lowLinkByNode
      ensures State() == SetLow(old(State()), node, Min(old(lowLinkByNode[node]), bound))
    {
      lowLinkByNode := lowLinkByNode[node := Min(lowLinkByNode[node], bound)];
    }

    /** `node` is the root of a component: takes it off the stack and reports it if it is cyclic. */
    method CloseComponent(ghost before: Dfs, node: Node, ghost open: set<Node>) returns (threw: bool)
      requires Exploring(graph, before, State(), open, node, |Succ(graph, node)|)
      requires node in lowLinkByNode && lowLinkByNode[node] == indexByNode[node]
      requires node !in open
      modifies this`stack, this`onStack, this`components
      ensures threw ==> "" in Nodes(graph)
      ensures !threw ==> Visited(graph, before, State(), open, node)
    {
      ghost var s := State();
      ghost var k := |before.stack|;
      RootOfExplored(graph, before, s, open, node);
      OrderedIsDistinct(graph, s);
      var component;
      threw, component := PopComponent(node, k);
      if threw {
        return;
      }
      PoppedIsReport(graph, s, open, node, k, component);
      PopVisited(graph, before, s, open, node, component);
      if |component| > 1 || node in Succ(graph, node) {
        components := components + [component];
      }
      assert components == s.components + Report(graph, node, component);
      assert State() == PopTo(s, k, Report(graph, node, component));
    }

    /** `stack.pop()`, where the empty name stands for no element. */
    method PopStack() returns (current: Node)
      modifies this`stack
      ensures old(stack) == [] ==> stack == [] && current == ""
      ensures old(stack) != [] ==>
                var top := |old(stack)| - 1; stack == old(stack)[..top] && current == old(stack)[top]
    {
      if stack == [] {
        return "";
      }
      current := stack[|stack| - 1];
      stack := stack[..|stack| - 1];
    }

    /** The pop loop: takes everything stacked since `node`, at position `k`, and `node` itself. */
    method PopComponent(node: Node, ghost k: nat) returns (threw: bool, component: seq<Node>)
      requires k < |stack| && stack[k] == node && NoDuplicates(stack)
      requires forall n :: n in stack ==> n in Nodes(graph)
      modifies this`stack, this`onStack
      ensures threw ==> "" in Nodes(graph)
      ensures !threw ==> stack == old(stack)[..k] && onStack == old(onStack) - Members(old(stack)[k..])
      ensures !threw ==> Popped(component, old(stack)[k..]) && "" !in component
    {
      ghost var all := stack;
      ghost var members := onStack;
      component := [];
      var done := false;
      assert all[..|all|] == all;
      while !done
        invariant k <= |stack| <= |all| && (done <==> |stack| == k)
        invariant PoppedTo(all, members, |stack|, stack, onStack, component)
        decreases |stack|
      {
        ghost var top := |stack| - 1;
        var current := PopStack();
        if current == "" {
          return true, component;
        }
        PopOne(all, members, top, component);
        onStack := onStack - {current};
        component := component + [current];
        done := current == node;
      }
      return false, component;
    }
  }

  function Min(a: nat, b: nat): nat {
    if a <= b then a else b
  }

  /** The state after a completed visit of `node`. */
  ghost predicate Visited(g: Graph, s: Dfs, t: Dfs, open: set<Node>, node: Node) {
    && Inv(g, t, open)
    && Grown(s, t)
    && node in t.index && node !in s.index
    && t.low[node] <= t.index[node]
    && LowBound(g, t, |s.stack|, |s.stack|, t.low[node])
    && (t.low[node] < t.index[node] ==> LowWitness(g, t, node, t.low[node]))
  }

  /** The first `n` imports of `node` are indexed, and those stacked before the visit no lower than `low`. */
  ghost predicate ImportsBounded(g: Graph, s: Dfs, u: Dfs, node: Node, n: nat, low: nat) {
    && n <= |Succ(g, node)|
    && (forall j :: 0 <= j < n ==> Succ(g, node)[j] in u.index)
    && (forall j :: 0 <= j < n && Succ(g, node)[j] in s.stack ==> low <= u.index[Succ(g, node)[j]])
  }

  /** The state of the loop over the imports of `node`, `i` of them handled. */
  ghost predicate Exploring(g: Graph, s: Dfs, t: Dfs, open: set<Node>, node: Node, i: nat) {
    var k := |s.stack|;
    && Inv(g, t, open + {node}) && Inv(g, s, open)
    && Grown(s, t)
    && node !in s.index && k < |t.stack| && t.stack[k] == node && t.index[node] == s.nextIndex
    && t.low[node] <= t.index[node]
    && LowWitness(g, t, node, t.low[node])
    && LowBound(g, t, k + 1, k, t.low[node])
    && ImportsBounded(g, s, t, node, i, t.low[node])
    && (forall a :: a in open ==> Reach(g, a, node))
  }

  /** `c` is the segment popped off the top, last stacked first. */
  ghost predicate Popped(c: seq<Node>, segment: seq<Node>) {
    && |c| == |segment|
    && forall i :: 0 <= i < |c| ==> c[i] == segment[|c| - 1 - i]
  }

  lemma EnterExploring(g: Graph, s: Dfs, open: set<Node>, node: Node)
    requires Inv(g, s, open) && node in Nodes(g) && node !in s.index
    requires forall a :: a in open ==> Reach(g, a, node)
    ensures Exploring(g, s, Enter(s, node), open, node, 0)
  {
    EnterKeepsInv(g, s, open, node);
    ReachSelf(g, node);
    assert node in Enter(s, node).onStack;
  }

  /** The recursive call on the next import is legal. */
  lemma NextIsReached(g: Graph, s: Dfs, t: Dfs, open: set<Node>, node: Node, i: nat)
    requires Exploring(g, s, t, open, node, i) && i < |Succ(g, node)|
    ensures Succ(g, node)[i] in Nodes(g)
    ensures forall a :: a in open + {node} ==> Reach(g, a, Succ(g, node)[i])
  {
    var next := Succ(g, node)[i];
    SuccIsNode(g, node, next);
    forall a | a in open + {node}
      ensures Reach(g, a, next)
    {
      if a == node {
        ReachEdge(g, node, next);
      } else {
        ReachStep(g, a, node, next);
      }
    }
  }

  function SetLow(t: Dfs, node: Node, bound: nat): Dfs {
    t.(low := t.low[node := bound])
  }

  lemma SetLowKeepsInv(g: Graph, t: Dfs, open: set<Node>, node: Node, bound: nat)
    requires Inv(g, t, open) && node in t.index
    ensures Inv(g, SetLow(t, node, bound), open)
  {
    var u := SetLow(t, node, bound);
    assert Finished(u) == Finished(t);
    assert Ordered(g, u);
    forall b | b in u.onStack
      ensures Anchored(g, u, open, b)
    {
      assert Anchored(g, t, open, b);
    }
  }

  lemma NodeStacked(g: Graph, s: Dfs, t: Dfs, open: set<Node>, node: Node, i: nat)
    requires Exploring(g, s, t, open, node, i)
    ensures node in t.index && node in t.onStack && node in t.low
  {
    assert t.stack[|s.stack|] in t.stack;
  }

  /** One import more is bounded, by a low link that is no higher. */
  lemma BoundedMore(g: Graph, s: Dfs, u: Dfs, node: Node, i: nat, low: nat, low': nat)
    requires ImportsBounded(g, s, u, node, i, low) && low' <= low
    requires i < |Succ(g, node)| && Succ(g, node)[i] in u.index
    requires Succ(g, node)[i] in s.stack ==> low' <= u.index[Succ(g, node)[i]]
    ensures ImportsBounded(g, s, u, node, i + 1, low')
  {
  }

  lemma BoundedGrows(g: Graph, s: Dfs, t: Dfs, u: Dfs, node: Node, i: nat, low: nat)
    requires ImportsBounded(g, s, t, node, i, low) && Grown(t, u)
    ensures ImportsBounded(g, s, u, node, i, low)
  {
  }

  /** The low link after looking at import `i` by way of `bound`. */
  lemma LowerLow(g: Graph, s: Dfs, t: Dfs, open: set<Node>, node: Node, i: nat, bound: nat)
    requires Exploring(g, s, t, open, node, i) && i < |Succ(g, node)| && Succ(g, node)[i] in t.index
    requires bound < t.low[node] ==> LowWitness(g, t, node, bound)
    requires Succ(g, node)[i] in s.stack ==> Min(t.low[node], bound) <= t.index[Succ(g, node)[i]]
    ensures Exploring(g, s, SetLow(t, node, Min(t.low[node], bound)), open, node, i + 1)
  {
    NodeStacked(g, s, t, open, node, i);
    var low := Min(t.low[node], bound);
    BoundedMore(g, s, t, node, i, t.low[node], low);
    LowBoundWeaker(g, t, |s.stack| + 1, |s.stack|, t.low[node], low);
    SetLowExploring(g, s, t, open, node, i + 1, low);
  }

  lemma LowBoundWeaker(g: Graph, s: Dfs, from: nat, k: nat, bound: nat, lower: nat)
    requires Ordered(g, s) && LowBound(g, s, from, k, bound) && lower <= bound
    ensures LowBound(g, s, from, k, lower)
  {
  }

  lemma ExploreStackedEdge(g: Graph, s: Dfs, t: Dfs, open: set<Node>, node: Node, i: nat)
    requires Exploring(g, s, t, open, node, i) && i < |Succ(g, node)| && Succ(g, node)[i] in t.onStack
    ensures Succ(g, node)[i] in t.index && node in t.low
    ensures Exploring(g, s, SetLow(t, node, Min(t.low[node], t.index[Succ(g, node)[i]])), open, node, i + 1)
  {
    var next := Succ(g, node)[i];
    NodeStacked(g, s, t, open, node, i);
    ReachEdge(g, node, next);
    assert LowWitness(g, t, node, t.index[next]);
    LowerLow(g, s, t, open, node, i, t.index[next]);
  }

  /** An import that has left the stack cannot be among the nodes stacked before the visit. */
  lemma ExploreFinishedEdge(g: Graph, s: Dfs, t: Dfs, open: set<Node>, node: Node, i: nat)
    requires Exploring(g, s, t, open, node, i) && i < |Succ(g, node)|
    requires Succ(g, node)[i] in t.index && Succ(g, node)[i] !in t.onStack
    ensures Exploring(g, s, t, open, node, i + 1)
  {
  }

  lemma GrownTrans(g: Graph, s: Dfs, t: Dfs, u: Dfs)
    requires Grown(s, t) && Grown(t, u)
    ensures Grown(s, u)
  {
    forall i | |s.stack| <= i < |u.stack|
      ensures u.stack[i] !in s.index
    {
      if i < |t.stack| {
        assert u.stack[i] == t.stack[i];
      }
    }
  }

  lemma LowBoundGrows(g: Graph, t: Dfs, u: Dfs, k: nat, bound: nat, other: nat)
    requires Ordered(g, t) && Ordered(g, u) && Grown(t, u) && k < |t.stack|
    requires LowBound(g, t, k + 1, k, bound)
    requires LowBound(g, u, |t.stack|, |t.stack|, other)
    ensures LowBound(g, u, k + 1, k, Min(bound, other))
  {
    forall i, j | 0 <= j < k && k + 1 <= i < |u.stack| && u.stack[j] in Succ(g, u.stack[i])
      ensures Min(bound, other) <= u.index[u.stack[j]]
    {
      assert u.stack[j] == t.stack[j] && t.stack[j] in t.stack;
      if i < |t.stack| {
        assert u.stack[i] == t.stack[i];
      }
    }
  }

  lemma WitnessGrows(g: Graph, t: Dfs, u: Dfs, node: Node, bound: nat)
    requires Ordered(g, t) && Ordered(g, u) && Grown(t, u) && LowWitness(g, t, node, bound)
    ensures LowWitness(g, u, node, bound)
  {
    var y :| y in t.onStack && t.index[y] == bound && Reach(g, node, y);
    assert y in t.stack;
    var j :| 0 <= j < |t.stack| && t.stack[j] == y;
    assert u.stack[j] == y && y in u.stack;
  }

  /** The lower of the two low links after a recursive visit is a low link for `node`. */
  lemma TreeEdgeLow(g: Graph, t: Dfs, u: Dfs, node: Node, next: Node, k: nat, bound: nat, other: nat)
    requires Ordered(g, t) && Ordered(g, u) && Grown(t, u) && k < |t.stack| && next in Succ(g, node)
    requires LowWitness(g, t, node, bound) && LowBound(g, t, k + 1, k, bound)
    requires LowBound(g, u, |t.stack|, |t.stack|, other) && (other < bound ==> LowWitness(g, u, next, other))
    ensures LowWitness(g, u, node, Min(bound, other)) && LowBound(g, u, k + 1, k, Min(bound, other))
  {
    WitnessGrows(g, t, u, node, bound);
    LowBoundGrows(g, t, u, k, bound, other);
    if other < bound {
      WitnessThrough(g, u, node, next, other);
    }
  }

  lemma TreeEdgeBounded(g: Graph, s: Dfs, t: Dfs, u: Dfs, open: set<Node>, node: Node, i: nat, low: nat)
    requires Exploring(g, s, t, open, node, i) && i < |Succ(g, node)| && Grown(t, u)
    requires Succ(g, node)[i] !in t.index && Succ(g, node)[i] in u.index
    requires node in t.low && low <= t.low[node]
    ensures ImportsBounded(g, s, u, node, i + 1, low)
  {
    BoundedGrows(g, s, t, u, node, i, t.low[node]);
    BoundedMore(g, s, u, node, i, t.low[node], low);
  }

  lemma ExploreTreeEdge(g: Graph, s: Dfs, t: Dfs, u: Dfs, open: set<Node>, node: Node, i: nat)
    requires Exploring(g, s, t, open, node, i) && i < |Succ(g, node)|
    requires Visited(g, t, u, open + {node}, Succ(g, node)[i])
    ensures node in u.low && Succ(g, node)[i] in u.low
    ensures Exploring(g, s, SetLow(u, node, Min(u.low[node], u.low[Succ(g, node)[i]])), open, node, i + 1)
  {
    var next := Succ(g, node)[i];
    NodeStacked(g, s, t, open, node, i);
    GrownTrans(g, s, t, u);
    var low := Min(u.low[node], u.low[next]);
    TreeEdgeLow(g, t, u, node, next, |s.stack|, t.low[node], u.low[next]);
    StackedNodeGrows(s, t, u, node);
    TreeEdgeBounded(g, s, t, u, open, node, i, low);
    SetLowExploring(g, s, u, open, node, i + 1, low);
  }

  lemma StackedNodeGrows(s: Dfs, t: Dfs, u: Dfs, node: Node)
    requires Grown(t, u) && |s.stack| < |t.stack| && t.stack[|s.stack|] == node
    requires node in t.index && t.index[node] == s.nextIndex
    ensures |s.stack| < |u.stack| && u.stack[|s.stack|] == node
    ensures node in u.index && u.index[node] == s.nextIndex
  {
    assert u.stack[|s.stack|] == t.stack[|s.stack|];
  }

  lemma WitnessThrough(g: Graph, u: Dfs, node: Node, next: Node, low: nat)
    requires Ordered(g, u) && LowWitness(g, u, next, low) && next in Succ(g, node)
    ensures LowWitness(g, u, node, low)
  {
    var y :| y in u.onStack && u.index[y] == low && Reach(g, next, y);
    ReachEdge(g, node, next);
    ReachTrans(g, node, next, y);
  }

  lemma SetLowExploring(g: Graph, s: Dfs, u: Dfs, open: set<Node>, node: Node, i: nat, low: nat)
    requires Inv(g, u, open + {node}) && Inv(g, s, open) && Grown(s, u)
    requires node !in s.index && |s.stack| < |u.stack| && u.stack[|s.stack|] == node
    requires node in u.index && u.index[node] == s.nextIndex && low <= u.index[node]
    requires LowWitness(g, u, node, low) && LowBound(g, u, |s.stack| + 1, |s.stack|, low)
    requires ImportsBounded(g, s, u, node, i, low)
    requires forall a :: a in open ==> Reach(g, a, node)
    ensures Exploring(g, s, SetLow(u, node, low), open, node, i)
  {
    var w := SetLow(u, node, low);
    SetLowKeepsInv(g, u, open + {node}, node, low);
    SetLowGrown(s, u, node, low);
    SetLowBounds(g, u, node, low, |s.stack|);
    assert w.low[node] == low && w.index == u.index && w.stack == u.stack;
    assert ImportsBounded(g, s, w, node, i, low);
  }

  lemma SetLowGrown(s: Dfs, u: Dfs, node: Node, low: nat)
    requires Grown(s, u) && node !in s.index && s.low.Keys == s.index.Keys
    ensures Grown(s, SetLow(u, node, low))
  {
  }

  /** What a low link means does not depend on the low links. */
  lemma SetLowBounds(g: Graph, u: Dfs, node: Node, low: nat, k: nat)
    requires Ordered(g, u) && node in u.index
    requires LowWitness(g, u, node, low) && LowBound(g, u, k + 1, k, low)
    ensures var w := SetLow(u, node, low);
            Ordered(g, w) && LowWitness(g, w, node, low) && LowBound(g, w, k + 1, k, low)
  {
  }

  /** Fewer nodes are unvisited than before the visit. */
  lemma ExploringShrinks(g: Graph, s: Dfs, t: Dfs, open: set<Node>, node: Node, i: nat)
    requires Exploring(g, s, t, open, node, i) && node in Nodes(g)
    ensures Nodes(g) - t.index.Keys < Nodes(g) - s.index.Keys
  {
    NodeStacked(g, s, t, open, node, i);
    assert node in Nodes(g) - s.index.Keys;
  }

  lemma AllImportsIndexed(g: Graph, s: Dfs, t: Dfs, node: Node, low: nat)
    requires ImportsBounded(g, s, t, node, |Succ(g, node)|, low)
    ensures forall m :: m in Succ(g, node) ==> m in t.index
  {
  }

  lemma ExploredLowBound(g: Graph, s: Dfs, t: Dfs, node: Node, low: nat)
    requires Ordered(g, t) && s.stack <= t.stack && |s.stack| < |t.stack| && t.stack[|s.stack|] == node
    requires ImportsBounded(g, s, t, node, |Succ(g, node)|, low) && LowBound(g, t, |s.stack| + 1, |s.stack|, low)
    ensures LowBound(g, t, |s.stack|, |s.stack|, low)
  {
    var k := |s.stack|;
    forall i, j | 0 <= j < k && k <= i < |t.stack| && t.stack[j] in Succ(g, t.stack[i])
      ensures low <= t.index[t.stack[j]]
    {
      if i == k {
        assert t.stack[j] == s.stack[j];
        var l :| 0 <= l < |Succ(g, node)| && Succ(g, node)[l] == t.stack[j];
      }
    }
  }

  lemma LeaveVisited(g: Graph, s: Dfs, t: Dfs, open: set<Node>, node: Node)
    requires Exploring(g, s, t, open, node, |Succ(g, node)|)
    requires node in t.low && t.low[node] != t.index[node]
    ensures Visited(g, s, t, open, node)
  {
    AllImportsIndexed(g, s, t, node, t.low[node]);
    ExploredLowBound(g, s, t, node, t.low[node]);
    LeaveKeepsInv(g, t, open, node, t.low[node]);
  }

  lemma RootOfExplored(g: Graph, s: Dfs, t: Dfs, open: set<Node>, node: Node)
    requires Exploring(g, s, t, open, node, |Succ(g, node)|)
    requires node in t.low && t.low[node] == t.index[node]
    ensures IsRoot(g, t, open, node, |s.stack|)
  {
    AllImportsIndexed(g, s, t, node, t.low[node]);
    ExploredLowBound(g, s, t, node, t.low[node]);
    forall a | a in open
      ensures a in t.stack[..|s.stack|]
    {
      assert a in s.stack;
      assert t.stack[..|s.stack|] == s.stack;
    }
  }

  lemma OrderedIsDistinct(g: Graph, s: Dfs)
    requires Ordered(g, s)
    ensures NoDuplicates(s.stack)
  {
  }

  /** Everything from position `top` up has been popped off `all`. */
  ghost predicate PoppedTo(all: seq<Node>, members: set<Node>, top: nat, stack: seq<Node>, onStack: set<Node>,
                           c: seq<Node>) {
    && top <= |all| && stack == all[..top] && onStack == members - Members(all[top..])
    && Popped(c, all[top..]) && "" !in c
  }

  lemma PopOne(all: seq<Node>, members: set<Node>, top: nat, c: seq<Node>)
    requires top < |all| && Popped(c, all[top + 1..]) && "" !in c && all[top] != ""
    ensures all[..top + 1][..top] == all[..top]
    ensures Members(all[top..]) == Members(all[top + 1..]) + {all[top]}
    ensures Popped(c + [all[top]], all[top..]) && "" !in c + [all[top]]
  {
    assert all[top..] == [all[top]] + all[top + 1..];
  }

  lemma PoppedIsReport(g: Graph, s: Dfs, open: set<Node>, node: Node, k: nat, c: seq<Node>)
    requires IsRoot(g, s, open, node, k) && Popped(c, s.stack[k..])
    ensures IsReport(g, s, node, k, c)
  {
    var segment := s.stack[k..];
    forall i, j | 0 <= i < j < |c|
      ensures c[i] != c[j]
    {
      assert s.index[s.stack[k + (|c| - 1 - j)]] < s.index[s.stack[k + (|c| - 1 - i)]];
    }
    forall n | n in segment
      ensures n in c
    {
      var i :| 0 <= i < |segment| && segment[i] == n;
      assert c[|c| - 1 - i] == n;
    }
  }

  lemma GrownPop(g: Graph, s: Dfs, t: Dfs, cs: seq<seq<Node>>)
    requires Grown(s, t)
    ensures Grown(s, PopTo(t, |s.stack|, cs))
  {
  }

  /** What remains to be said of a visit once its component is popped. */
  lemma PoppedBounds(g: Graph, s: Dfs, t: Dfs, node: Node, cs: seq<seq<Node>>)
    requires Grown(s, t) && node in t.index && node in t.low && t.low[node] == t.index[node]
    requires Ordered(g, PopTo(t, |s.stack|, cs))
    ensures var u := PopTo(t, |s.stack|, cs);
            Grown(s, u) && u.low[node] == u.index[node] && LowBound(g, u, |s.stack|, |s.stack|, u.low[node])
  {
    GrownPop(g, s, t, cs);
  }

  lemma PopVisited(g: Graph, s: Dfs, t: Dfs, open: set<Node>, node: Node, c: seq<Node>)
    requires Exploring(g, s, t, open, node, |Succ(g, node)|) && node !in open
    requires IsRoot(g, t, open, node, |s.stack|) && IsReport(g, t, node, |s.stack|, c) && "" !in c
    requires node in t.low && t.low[node] == t.index[node]
    ensures Visited(g, s, PopTo(t, |s.stack|, Report(g, node, c)), open, node)
  {
    PopKeepsInv(g, t, open, node, |s.stack|, c);
    PoppedBounds(g, s, t, node, Report(g, node, c));
  }

  /** Two components with a common member are the same. */
  lemma SccUnique(g: Graph, c: set<Node>, d: set<Node>, n: Node)
    requires IsScc(g, c) && IsScc(g, d) && n in c && n in d
    ensures c == d
  {
    assert forall m :: m in c ==> Reach(g, n, m) && Reach(g, m, n);
    assert forall m :: m in d ==> Reach(g, n, m) && Reach(g, m, n);
  }

  lemma CyclicSccHasCycleNode(g: Graph, c: set<Node>) returns (n: Node)
    requires IsCyclicScc(g, c)
    ensures n in c && OnCycle(g, n)
  {
    if s :| s in c && s in Succ(g, s) {
      ReachSelf(g, s);
      n := s;
    } else {
      n :| n in c;
      assert |c - {n}| == |c| - 1;
      var other :| other in c - {n};
      var m := ReachFirstStep(g, n, other);
      ReachTrans(g, m, other, n);
    }
  }

  /** With no visit open and every key visited, everything is finished. */
  lemma AllFinished(g: Graph, s: Dfs)
    requires Inv(g, s, {}) && g.Keys <= s.index.Keys
    ensures Nodes(g) == Finished(s)
  {
    assert forall n :: n in s.onStack ==> Anchored(g, s, {}, n);
    forall m | m in Nodes(g)
      ensures m in s.index
    {
      if m !in g {
        var n :| n in g && m in g[n];
        assert m in Succ(g, n);
      }
    }
  }

  lemma FinishedReports(g: Graph, s: Dfs)
    requires Inv(g, s, {}) && g.Keys <= s.index.Keys
    ensures "" !in Nodes(g) && ReportsCyclicSccs(g, s.components)
  {
    AllFinished(g, s);
    forall i | 0 <= i < |s.components|
      ensures NoDuplicates(s.components[i]) && IsCyclicScc(g, Members(s.components[i]))
    {
      assert IsComponent(g, Finished(s), s.components[i]);
    }
    forall c | IsCyclicScc(g, c)
      ensures exists i :: 0 <= i < |s.components| && Members(s.components[i]) == c
    {
      var n := CyclicSccHasCycleNode(g, c);
      assert n in g;
      assert Covered(s.components, n);
      var d :| d in s.components && n in d;
      assert IsComponent(g, Finished(s), d);
      SccUnique(g, c, Members(d), n);
      var i :| 0 <= i < |s.components| && s.components[i] == d;
    }
  }

  /** The search crashes exactly on an empty name, and otherwise reports exactly the cyclic components. */
  method CollectStronglyConnectedComponents(graph: Graph) returns (r: SccResult)
    ensures r.StackUnderflow? <==> "" in Nodes(graph)
    ensures r.Components? ==> ReportsCyclicSccs(graph, r.value)
  {
    var search := new SccSearch(graph);
    StartInv(graph);
    var todo := graph.Keys;
    while todo != {}
      invariant search.graph == graph && fresh(search)
      invariant Inv(graph, search.State(), {})
      invariant todo <= graph.Keys <= search.indexByNode.Keys + todo
    {
      var node :| node in todo;
      todo := todo - {node};
      if node !in search.indexByNode {
        var threw := search.Visit(node, {});
        if threw {
          return StackUnderflow;
        }
      }
    }
    FinishedReports(graph, search.State());
    return Components(search.components);
  }

  /** Nothing is reported exactly when the graph has no cycle. */
  lemma NothingReportedIffAcyclic(g: Graph, cs: seq<seq<Node>>)
    requires ReportsCyclicSccs(g, cs)
    ensures |cs| == 0 <==> Acyclic(g)
  {
    AcyclicIffNoNodeOnCycle(g);
    if |cs| > 0 {
      var n := CyclicSccHasCycleNode(g, Members(cs[0]));
    }
    if n :| OnCycle(g, n) {
      var c := CycleNodeScc(g, n);
    }
  }

  /** A node on a cycle belongs to a cyclic component. */
  lemma CycleNodeScc(g: Graph, n: Node) returns (c: set<Node>)
    requires OnCycle(g, n)
    ensures IsCyclicScc(g, c) && n in c
  {
    var m :| m in Succ(g, n) && Reach(g, m, n);
    ReachSelf(g, n);
    SuccIsNode(g, n, m);
    c := set w | w in Nodes(g) && Reach(g, n, w) && Reach(g, w, n);
    forall a, b | a in c && b in c
      ensures Reach(g, a, b)
    {
      ReachTrans(g, a, n, b);
    }
    forall a, w | a in c && Reach(g, a, w) && Reach(g, w, a)
      ensures w in c
    {
      ReachTrans(g, n, a, w);
      ReachTrans(g, w, a, n);
      if w != a {
        var x := ReachFirstStep(g, w, a);
      }
    }
    ReachEdge(g, n, m);
    if m != n {
      assert {n, m} <= c;
      assert |c| >= |{n, m}| by {
        SubsetSize({n, m}, c);
      }
    }
  }
}

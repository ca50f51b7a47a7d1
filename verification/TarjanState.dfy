/**
 The state of the depth-first search behind `collectStronglyConnectedComponents`, the
 invariant every step keeps, and one lemma per step.  `open` is the call stack: the nodes
 whose visit has begun and not yet returned.
 */
module TarjanState {
  import opened Graphs

  datatype Dfs = Dfs(
    nextIndex: nat,
    stack: seq<Node>,
    onStack: set<Node>,
    index: map<Node, nat>,
    low: map<Node, nat>,
    components: seq<seq<Node>>)

  ghost function Members(c: seq<Node>): set<Node> {
    set n | n in c
  }

  ghost predicate NoDuplicates(c: seq<Node>) {
    forall i, j :: 0 <= i < j < |c| ==> c[i] != c[j]
  }

  /** The stack is ordered by index and `onStack` is its set of members. */
  ghost predicate Ordered(g: Graph, s: Dfs) {
    && s.low.Keys == s.index.Keys
    && s.index.Keys <= Nodes(g)
    && (forall n :: n in s.index ==> s.index[n] < s.nextIndex)
    && (forall n :: n in s.stack ==> n in s.index)
    && (forall i, j :: 0 <= i < j < |s.stack| ==> s.index[s.stack[i]] < s.index[s.stack[j]])
    && (forall n :: n in s.onStack <==> n in s.stack)
  }

  /** Some open node at or below `b` is reachable from `b`. */
  ghost predicate Anchored(g: Graph, s: Dfs, open: set<Node>, b: Node)
    requires b in s.index
  {
    exists a :: a in open && a in s.index && s.index[a] <= s.index[b] && Reach(g, b, a)
  }

  ghost predicate AllAnchored(g: Graph, s: Dfs, open: set<Node>)
    requires Ordered(g, s)
  {
    forall b {:trigger Anchored(g, s, open, b)} :: b in s.onStack ==> Anchored(g, s, open, b)
  }

  /** Every open node reaches all that is stacked after it; every stacked node reaches an open one. */
  ghost predicate Linked(g: Graph, s: Dfs, open: set<Node>)
    requires Ordered(g, s)
  {
    && open <= s.onStack
    && (forall a, b :: a in open && b in s.onStack && s.index[a] <= s.index[b] ==> Reach(g, a, b))
    && AllAnchored(g, s, open)
  }

  /** The nodes that were indexed and have left the stack. */
  ghost function Finished(s: Dfs): set<Node> {
    s.index.Keys - s.onStack
  }

  /** No edge leads from a finished node to an unfinished one, nor from a closed visit to an unvisited node. */
  ghost predicate Settled(g: Graph, s: Dfs, open: set<Node>) {
    && SuccClosed(g, Finished(s))
    && (forall n, m :: n in s.index && n !in open && m in Succ(g, n) ==> m in s.index)
  }

  ghost predicate IsComponent(g: Graph, within: set<Node>, c: seq<Node>) {
    NoDuplicates(c) && IsCyclicScc(g, Members(c)) && Members(c) <= within
  }

  ghost predicate Disjoint(components: seq<seq<Node>>) {
    forall i, j :: 0 <= i < j < |components| ==> Members(components[i]) !! Members(components[j])
  }

  ghost predicate Covered(components: seq<seq<Node>>, n: Node) {
    exists c :: c in components && n in c
  }

  /** The components found so far are the cyclic components among the finished nodes. */
  ghost predicate Reported(g: Graph, s: Dfs) {
    && "" !in Finished(s)
    && (forall c :: c in s.components ==> IsComponent(g, Finished(s), c))
    && Disjoint(s.components)
    && (forall n {:trigger Covered(s.components, n)} ::
          n in Finished(s) && OnCycle(g, n) ==> Covered(s.components, n))
  }

  ghost predicate Inv(g: Graph, s: Dfs, open: set<Node>) {
    && Ordered(g, s)
    && Linked(g, s, open)
    && Settled(g, s, open)
    && Reported(g, s)
  }

  const START := Dfs(0, [], {}, map[], map[], [])

  lemma StartInv(g: Graph)
    ensures Inv(g, START, {})
  {
  }

  /** Entering `visit(node)`. */
  function Enter(s: Dfs, node: Node): Dfs {
    Dfs(s.nextIndex + 1, s.stack + [node], s.onStack + {node},
        s.index[node := s.nextIndex], s.low[node := s.nextIndex], s.components)
  }

  lemma EnterKeepsOrdered(g: Graph, s: Dfs, node: Node)
    requires Ordered(g, s) && node in Nodes(g) && node !in s.index
    ensures Ordered(g, Enter(s, node))
  {
  }

  lemma EnterKeepsLinked(g: Graph, s: Dfs, open: set<Node>, node: Node)
    requires Ordered(g, s) && Linked(g, s, open) && node in Nodes(g) && node !in s.index
    requires forall a :: a in open ==> Reach(g, a, node)
    ensures Ordered(g, Enter(s, node)) && Linked(g, Enter(s, node), open + {node})
  {
    var t := Enter(s, node);
    EnterKeepsOrdered(g, s, node);
    ReachSelf(g, node);
    forall a, b | a in open + {node} && b in t.onStack && t.index[a] <= t.index[b]
      ensures Reach(g, a, b)
    {
      assert b == node || (a != node && s.index[a] <= s.index[b]);
    }
    forall b | b in t.onStack
      ensures Anchored(g, t, open + {node}, b)
    {
      if b != node {
        assert Anchored(g, s, open, b);
        var a :| a in open && a in s.index && s.index[a] <= s.index[b] && Reach(g, b, a);
        assert t.index[a] <= t.index[b];
      }
    }
  }

  lemma EnterKeepsInv(g: Graph, s: Dfs, open: set<Node>, node: Node)
    requires Inv(g, s, open) && node in Nodes(g) && node !in s.index
    requires forall a :: a in open ==> Reach(g, a, node)
    ensures Inv(g, Enter(s, node), open + {node})
  {
    EnterKeepsLinked(g, s, open, node);
    assert Finished(Enter(s, node)) == Finished(s);
  }

  /** What a whole visit adds to the state it began in. */
  ghost predicate Grown(s: Dfs, t: Dfs) {
    && s.nextIndex <= t.nextIndex
    && s.index.Keys <= t.index.Keys
    && (forall n :: n in s.index ==> t.index[n] == s.index[n])
    && (forall n :: n in s.low ==> n in t.low && t.low[n] == s.low[n])
    && (forall n :: n in t.index && n !in s.index ==> s.nextIndex <= t.index[n])
    && s.stack <= t.stack
    && (forall i :: |s.stack| <= i < |t.stack| ==> t.stack[i] !in s.index)
  }

  /** Edges from the stack positions `from..` to the positions below `k` end at an index of at least `bound`. */
  ghost predicate LowBound(g: Graph, s: Dfs, from: nat, k: nat, bound: nat)
    requires Ordered(g, s)
  {
    forall i, j :: 0 <= j < k && k <= |s.stack| && from <= i < |s.stack| && s.stack[j] in Succ(g, s.stack[i])
                   ==> bound <= s.index[s.stack[j]]
  }

  /** The low link of `node` is the index of a stacked node that `node` reaches. */
  ghost predicate LowWitness(g: Graph, s: Dfs, node: Node, bound: nat)
    requires Ordered(g, s)
  {
    exists y :: y in s.onStack && s.index[y] == bound && Reach(g, node, y)
  }

  /** `node` reaches an open node stacked before it. */
  lemma LowReachesOpen(g: Graph, s: Dfs, open: set<Node>, node: Node, bound: nat) returns (c: Node)
    requires Ordered(g, s) && Linked(g, s, open + {node})
    requires node in s.index && bound < s.index[node] && LowWitness(g, s, node, bound)
    ensures c in open && c in s.index && s.index[c] < s.index[node] && Reach(g, node, c)
  {
    var y :| y in s.onStack && s.index[y] == bound && Reach(g, node, y);
    assert Anchored(g, s, open + {node}, y);
    c :| c in open + {node} && c in s.index && s.index[c] <= s.index[y] && Reach(g, y, c);
    ReachTrans(g, node, y, c);
  }

  lemma LeaveKeepsAnchor(g: Graph, s: Dfs, open: set<Node>, node: Node, c: Node, b: Node)
    requires b in s.index && Anchored(g, s, open + {node}, b)
    requires node in s.index && c in open && c in s.index && s.index[c] < s.index[node] && Reach(g, node, c)
    ensures Anchored(g, s, open, b)
  {
    var a :| a in open + {node} && a in s.index && s.index[a] <= s.index[b] && Reach(g, b, a);
    if a == node {
      ReachTrans(g, b, node, c);
    }
  }

  lemma LeaveKeepsAllAnchored(g: Graph, s: Dfs, open: set<Node>, node: Node, c: Node)
    requires Ordered(g, s) && AllAnchored(g, s, open + {node})
    requires node in s.index && c in open && c in s.index && s.index[c] < s.index[node] && Reach(g, node, c)
    ensures AllAnchored(g, s, open)
  {
    forall b | b in s.onStack
      ensures Anchored(g, s, open, b)
    {
      assert Anchored(g, s, open + {node}, b);
      LeaveKeepsAnchor(g, s, open, node, c, b);
    }
  }

  lemma LeaveKeepsLinked(g: Graph, s: Dfs, open: set<Node>, node: Node, bound: nat)
    requires Ordered(g, s) && Linked(g, s, open + {node})
    requires node in s.index && bound < s.index[node] && LowWitness(g, s, node, bound)
    ensures Linked(g, s, open)
  {
    var c := LowReachesOpen(g, s, open, node, bound);
    LeaveKeepsAllAnchored(g, s, open, node, c);
  }

  /** Leaving `visit(node)` when `node` is not the root of a component. */
  lemma LeaveKeepsInv(g: Graph, s: Dfs, open: set<Node>, node: Node, bound: nat)
    requires Inv(g, s, open + {node})
    requires node in s.index && bound < s.index[node] && LowWitness(g, s, node, bound)
    requires forall m :: m in Succ(g, node) ==> m in s.index
    ensures Inv(g, s, open)
  {
    LeaveKeepsLinked(g, s, open, node, bound);
  }

  /** The nodes stacked at or after position `k`. */
  ghost function Segment(s: Dfs, k: nat): set<Node>
    requires k <= |s.stack|
  {
    Members(s.stack[k..])
  }

  /** `node` sits at stack position `k`, is open, and no edge leaves its segment towards the rest of the stack. */
  ghost predicate IsRoot(g: Graph, s: Dfs, open: set<Node>, node: Node, k: nat) {
    && Inv(g, s, open + {node})
    && k < |s.stack| && s.stack[k] == node
    && (forall a :: a in open ==> a in s.stack[..k])
    && (forall m :: m in Succ(g, node) ==> m in s.index)
    && LowBound(g, s, k, k, s.index[node])
  }

  lemma SegmentIsLater(g: Graph, s: Dfs, k: nat, b: Node)
    requires Ordered(g, s) && k < |s.stack| && b in s.onStack
    ensures b in Segment(s, k) <==> s.index[s.stack[k]] <= s.index[b]
    ensures b in Segment(s, k) <==> b !in s.stack[..k]
  {
    var i :| 0 <= i < |s.stack| && s.stack[i] == b;
    if i < k {
      assert s.stack[..k][i] == b;
      assert forall j :: k <= j < |s.stack| ==> s.index[b] < s.index[s.stack[j]];
    } else {
      assert s.stack[k..][i - k] == b;
    }
  }

  lemma SegmentIsClosed(g: Graph, s: Dfs, open: set<Node>, node: Node, k: nat)
    requires IsRoot(g, s, open, node, k)
    ensures SuccClosed(g, Segment(s, k) + Finished(s))
  {
    var seg := Segment(s, k);
    forall n, m | n in seg + Finished(s) && m in Succ(g, n)
      ensures m in seg + Finished(s)
    {
      if n in seg {
        var i :| k <= i < |s.stack| && s.stack[i] == n;
        SegmentIsLater(g, s, k, n);
        assert n == node || n !in open + {node};
        assert m in s.index;
        if m in s.onStack {
          SegmentIsLater(g, s, k, m);
        }
      }
    }
  }

  lemma SegmentIsScc(g: Graph, s: Dfs, open: set<Node>, node: Node, k: nat)
    requires IsRoot(g, s, open, node, k)
    ensures IsScc(g, Segment(s, k)) && node in Segment(s, k)
  {
    var seg := Segment(s, k);
    SegmentIsLater(g, s, k, node);
    forall b | b in seg
      ensures Reach(g, node, b) && Reach(g, b, node)
    {
      SegmentIsLater(g, s, k, b);
      assert Anchored(g, s, open + {node}, b);
      var a :| a in open + {node} && a in s.index && s.index[a] <= s.index[b] && Reach(g, b, a);
      if a != node {
        SegmentIsLater(g, s, k, a);
        assert Reach(g, a, node);
        ReachTrans(g, b, a, node);
      }
    }
    forall a, b | a in seg && b in seg
      ensures Reach(g, a, b)
    {
      ReachTrans(g, a, node, b);
    }
    SegmentIsClosed(g, s, open, node, k);
    forall a, w | a in seg && Reach(g, a, w) && Reach(g, w, a)
      ensures w in seg
    {
      ClosedHoldsReach(g, seg + Finished(s), a, w);
      if w in Finished(s) {
        ClosedHoldsReach(g, Finished(s), w, a);
        SegmentIsLater(g, s, k, a);
      }
    }
  }

  /** The state after the pop loop of a root at position `k`. */
  ghost function PopTo(s: Dfs, k: nat, cs: seq<seq<Node>>): Dfs
    requires k <= |s.stack|
  {
    s.(stack := s.stack[..k], onStack := s.onStack - Segment(s, k), components := s.components + cs)
  }

  /** What is reported of the popped nodes `c`. */
  function Report(g: Graph, node: Node, c: seq<Node>): seq<seq<Node>> {
    if |c| > 1 || node in Succ(g, node) then [c] else []
  }

  /** `c` lists the popped segment. */
  ghost predicate IsReport(g: Graph, s: Dfs, node: Node, k: nat, c: seq<Node>)
    requires k <= |s.stack|
  {
    NoDuplicates(c) && Members(c) == Segment(s, k)
  }

  lemma PopKeepsOrdered(g: Graph, s: Dfs, k: nat, cs: seq<seq<Node>>)
    requires Ordered(g, s) && k < |s.stack|
    ensures Ordered(g, PopTo(s, k, cs))
  {
    var t := PopTo(s, k, cs);
    forall n | n in s.onStack
      ensures n in t.onStack <==> n in t.stack
    {
      SegmentIsLater(g, s, k, n);
    }
    forall n | n in t.stack
      ensures n in t.onStack
    {
      assert n in s.stack;
      SegmentIsLater(g, s, k, n);
    }
  }

  lemma PopKeepsLinked(g: Graph, s: Dfs, open: set<Node>, node: Node, k: nat, cs: seq<seq<Node>>)
    requires IsRoot(g, s, open, node, k)
    ensures Ordered(g, PopTo(s, k, cs)) && Linked(g, PopTo(s, k, cs), open)
  {
    var t := PopTo(s, k, cs);
    PopKeepsOrdered(g, s, k, cs);
    forall b | b in t.onStack
      ensures Anchored(g, t, open, b)
    {
      SegmentIsLater(g, s, k, b);
      assert Anchored(g, s, open + {node}, b);
      var a :| a in open + {node} && a in s.index && s.index[a] <= s.index[b] && Reach(g, b, a);
      assert a in open;
    }
  }

  lemma DistinctLength(c: seq<Node>)
    requires NoDuplicates(c)
    ensures |Members(c)| == |c|
  {
    if |c| > 0 {
      var d := c[..|c| - 1];
      DistinctLength(d);
      assert Members(c) == Members(d) + {c[|c| - 1]};
    }
  }

  /** A component is cyclic exactly when the code's test says so, and exactly when its members lie on cycles. */
  lemma CyclicTest(g: Graph, c: seq<Node>, node: Node)
    requires NoDuplicates(c) && node in c && IsScc(g, Members(c))
    ensures (|c| > 1 || node in Succ(g, node)) <==> IsCyclicScc(g, Members(c))
    ensures forall n :: n in c && OnCycle(g, n) ==> IsCyclicScc(g, Members(c))
  {
    DistinctLength(c);
    if |c| == 1 {
      assert Members(c) == {node};
      forall n | n in c && OnCycle(g, n)
        ensures node in Succ(g, node)
      {
        var m :| m in Succ(g, n) && Reach(g, m, n);
        ReachEdge(g, n, m);
        assert m in Members(c);
      }
    }
  }

  lemma AppendKeepsDisjoint(components: seq<seq<Node>>, within: set<Node>, c: seq<Node>)
    requires Disjoint(components) && Members(c) !! within
    requires forall d :: d in components ==> Members(d) <= within
    ensures Disjoint(components + [c])
  {
    var t := components + [c];
    forall i, j | 0 <= i < j < |t|
      ensures Members(t[i]) !! Members(t[j])
    {
      assert t[i] in components;
    }
  }

  lemma AppendKeepsCovered(components: seq<seq<Node>>, cs: seq<seq<Node>>, n: Node)
    requires Covered(components, n) || Covered(cs, n)
    ensures Covered(components + cs, n)
  {
    var c :| (c in components || c in cs) && n in c;
    assert c in components + cs;
  }

  lemma PopFinishes(g: Graph, s: Dfs, k: nat, cs: seq<seq<Node>>)
    requires Ordered(g, s) && k < |s.stack|
    ensures Finished(PopTo(s, k, cs)) == Finished(s) + Segment(s, k)
    ensures Finished(s) !! Segment(s, k)
  {
    forall n | n in Segment(s, k)
      ensures n in s.index && n in s.onStack
    {
      assert n in s.stack;
    }
  }

  /** What the code reports of a popped segment is a component; what it drops lies on no cycle. */
  lemma ReportIsComponent(g: Graph, node: Node, c: seq<Node>)
    requires NoDuplicates(c) && node in c && IsScc(g, Members(c))
    ensures forall d :: d in Report(g, node, c) ==> d == c && IsComponent(g, Members(c), d)
    ensures forall n :: n in c && OnCycle(g, n) ==> Covered(Report(g, node, c), n)
  {
    CyclicTest(g, c, node);
    if Report(g, node, c) == [c] {
      assert c in Report(g, node, c);
    }
  }

  lemma ComponentGrows(g: Graph, within: set<Node>, more: set<Node>, c: seq<Node>)
    requires IsComponent(g, within, c) && within <= more
    ensures IsComponent(g, more, c)
  {
  }

  lemma PopKeepsReported(g: Graph, s: Dfs, node: Node, k: nat, c: seq<Node>)
    requires Ordered(g, s) && Reported(g, s) && k < |s.stack| && IsScc(g, Segment(s, k)) && node in Segment(s, k)
    requires IsReport(g, s, node, k, c) && "" !in c
    ensures Reported(g, PopTo(s, k, Report(g, node, c)))
  {
    var cs := Report(g, node, c);
    var t := PopTo(s, k, cs);
    ReportIsComponent(g, node, c);
    PopFinishes(g, s, k, cs);
    if cs == [c] {
      AppendKeepsDisjoint(s.components, Finished(s), c);
    } else {
      assert t.components == s.components;
    }
    forall n | n in Finished(t) && OnCycle(g, n)
      ensures Covered(t.components, n)
    {
      assert n in Finished(s) ==> Covered(s.components, n);
      AppendKeepsCovered(s.components, cs, n);
    }
    forall d | d in t.components
      ensures IsComponent(g, Finished(t), d)
    {
      ComponentGrows(g, if d in cs then Members(c) else Finished(s), Finished(t), d);
    }
  }

  /** Leaving `visit(node)` when `node` is the root of a component. */
  lemma PopKeepsInv(g: Graph, s: Dfs, open: set<Node>, node: Node, k: nat, c: seq<Node>)
    requires IsRoot(g, s, open, node, k) && IsReport(g, s, node, k, c) && "" !in c && node !in open
    ensures Inv(g, PopTo(s, k, Report(g, node, c)), open)
  {
    var cs := Report(g, node, c);
    var t := PopTo(s, k, cs);
    PopKeepsLinked(g, s, open, node, k, cs);
    SegmentIsScc(g, s, open, node, k);
    PopKeepsReported(g, s, node, k, c);
    SegmentIsClosed(g, s, open, node, k);
    PopFinishes(g, s, k, cs);
  }
}

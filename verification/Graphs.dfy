/** Finite directed graphs of source files and reachability in them. */
module Graphs {

  type Node = string

  /** A file maps to the files it imports; a target need not be a key itself. */
  type Graph = map<Node, seq<Node>>

  function Succ(g: Graph, n: Node): seq<Node> {
    if n in g then g[n] else []
  }

  ghost function Nodes(g: Graph): set<Node> {
    g.Keys + set n, m | n in g && m in g[n] :: m
  }

  ghost predicate EdgeAt(g: Graph, p: seq<Node>, i: nat)
    requires i + 1 < |p|
  {
    p[i + 1] in Succ(g, p[i])
  }

  ghost predicate IsWalk(g: Graph, p: seq<Node>) {
    && |p| > 0
    && forall i: nat :: i + 1 < |p| ==> EdgeAt(g, p, i)
  }

  ghost predicate Reach(g: Graph, a: Node, b: Node) {
    exists p :: IsWalk(g, p) && p[0] == a && p[|p| - 1] == b
  }

  /** `n` lies on a closed walk with at least one edge. */
  ghost predicate OnCycle(g: Graph, n: Node) {
    exists m :: m in Succ(g, n) && Reach(g, m, n)
  }

  ghost predicate Acyclic(g: Graph) {
    forall p :: IsWalk(g, p) && |p| > 1 ==> p[0] != p[|p| - 1]
  }

  /** A maximal set of mutually reachable nodes. */
  ghost predicate IsScc(g: Graph, c: set<Node>) {
    && c != {}
    && (forall a, b :: a in c && b in c ==> Reach(g, a, b))
    && (forall a, w :: a in c && Reach(g, a, w) && Reach(g, w, a) ==> w in c)
  }

  /** A strongly connected component that carries a cycle: two members, or one with a self-edge. */
  ghost predicate IsCyclicScc(g: Graph, c: set<Node>) {
    && IsScc(g, c)
    && (|c| > 1 || exists n :: n in c && n in Succ(g, n))
  }

  ghost predicate SuccClosed(g: Graph, s: set<Node>) {
    forall n, m :: n in s && m in Succ(g, n) ==> m in s
  }

  lemma SuccIsNode(g: Graph, n: Node, m: Node)
    requires m in Succ(g, n)
    ensures m in Nodes(g)
  {
    assert n in g && m in g[n];
  }

  lemma ReachSelf(g: Graph, a: Node)
    ensures Reach(g, a, a)
  {
    assert IsWalk(g, [a]);
  }

  lemma ReachTrans(g: Graph, a: Node, b: Node, c: Node)
    requires Reach(g, a, b) && Reach(g, b, c)
    ensures Reach(g, a, c)
  {
    var p :| IsWalk(g, p) && p[0] == a && p[|p| - 1] == b;
    var q :| IsWalk(g, q) && q[0] == b && q[|q| - 1] == c;
    var r := p + q[1..];
    forall i: nat | i + 1 < |r|
      ensures EdgeAt(g, r, i)
    {
      if i < |p| - 1 {
        assert EdgeAt(g, p, i);
      } else {
        assert EdgeAt(g, q, i - |p| + 1);
      }
    }
    assert IsWalk(g, r);
  }

  lemma ReachEdge(g: Graph, a: Node, b: Node)
    requires b in Succ(g, a)
    ensures Reach(g, a, b)
  {
    assert IsWalk(g, [a, b]);
  }

  lemma ReachStep(g: Graph, a: Node, b: Node, c: Node)
    requires Reach(g, a, b) && c in Succ(g, b)
    ensures Reach(g, a, c)
  {
    ReachEdge(g, b, c);
    ReachTrans(g, a, b, c);
  }

  /** A set closed under successors holds everything reachable from it. */
  lemma ClosedHoldsReach(g: Graph, s: set<Node>, a: Node, b: Node)
    requires SuccClosed(g, s) && a in s && Reach(g, a, b)
    ensures b in s
  {
    var p :| IsWalk(g, p) && p[0] == a && p[|p| - 1] == b;
    var i := 0;
    while i < |p| - 1
      invariant 0 <= i < |p| && p[i] in s
    {
      assert EdgeAt(g, p, i);
      i := i + 1;
    }
  }

  /** A walk splits after its first edge. */
  lemma ReachFirstStep(g: Graph, a: Node, b: Node) returns (m: Node)
    requires Reach(g, a, b) && a != b
    ensures m in Succ(g, a) && Reach(g, m, b)
  {
    var p :| IsWalk(g, p) && p[0] == a && p[|p| - 1] == b;
    m := p[1];
    assert EdgeAt(g, p, 0);
    var q := p[1..];
    forall i: nat | i + 1 < |q|
      ensures EdgeAt(g, q, i)
    {
      assert EdgeAt(g, p, i + 1);
    }
    assert IsWalk(g, q);
  }

  /** A node on a cycle gives a closed walk with at least one edge. */
  lemma OnCycleWalk(g: Graph, n: Node) returns (q: seq<Node>)
    requires OnCycle(g, n)
    ensures IsWalk(g, q) && |q| > 1 && q[0] == q[|q| - 1]
  {
    var m :| m in Succ(g, n) && Reach(g, m, n);
    var p :| IsWalk(g, p) && p[0] == m && p[|p| - 1] == n;
    q := [n] + p;
    forall i: nat | i + 1 < |q|
      ensures EdgeAt(g, q, i)
    {
      if i > 0 {
        assert EdgeAt(g, p, i - 1);
      }
    }
  }

  /** A closed walk with at least one edge starts at a node on a cycle. */
  lemma ClosedWalkOnCycle(g: Graph, p: seq<Node>)
    requires IsWalk(g, p) && |p| > 1 && p[0] == p[|p| - 1]
    ensures OnCycle(g, p[0])
  {
    var q := p[1..];
    forall i: nat | i + 1 < |q|
      ensures EdgeAt(g, q, i)
    {
      assert EdgeAt(g, p, i + 1);
    }
    assert EdgeAt(g, p, 0);
    assert IsWalk(g, q) && q[0] == p[1] && q[|q| - 1] == p[0];
  }

  /** Cycles as closed walks and cycles as nodes that reach themselves are the same thing. */
  lemma AcyclicIffNoNodeOnCycle(g: Graph)
    ensures Acyclic(g) <==> forall n :: !OnCycle(g, n)
  {
    if n :| OnCycle(g, n) {
      var q := OnCycleWalk(g, n);
    }
    if p :| IsWalk(g, p) && |p| > 1 && p[0] == p[|p| - 1] {
      ClosedWalkOnCycle(g, p);
    }
  }
}

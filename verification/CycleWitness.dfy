/** A concrete cycle inside a component, and the verdict of the whole import check. */
module CycleWitness {
  import opened Graphs
  import opened TarjanState
  import opened ImportCycles
  import opened Optional

  /** A closed walk of graph edges inside `c` that repeats no node but its first. */
  ghost predicate IsCycleIn(g: Graph, c: set<Node>, w: seq<Node>) {
    && |w| > 1 && IsWalk(g, w) && w[0] == w[|w| - 1]
    && Members(w) <= c
    && NoDuplicates(w[..|w| - 1])
  }

  /** Some member has no import inside `c`. */
  ghost predicate HasDeadEnd(g: Graph, c: set<Node>) {
    exists n {:trigger IsDeadEnd(g, c, n)} :: n in c && IsDeadEnd(g, c, n)
  }

  ghost predicate IsDeadEnd(g: Graph, c: set<Node>, n: Node) {
    forall m :: m in Succ(g, n) ==> m !in c
  }

  lemma CyclicSccHasNoDeadEnd(g: Graph, c: set<Node>)
    requires IsCyclicScc(g, c)
    ensures !HasDeadEnd(g, c)
  {
    forall n | n in c
      ensures !IsDeadEnd(g, c, n)
    {
      if !(n in Succ(g, n)) {
        var other := OtherMember(g, c, n);
        var m := ReachFirstStep(g, n, other);
        ReachEdge(g, n, m);
        ReachTrans(g, m, other, n);
        assert m in c;
      }
    }
  }

  lemma OtherMember(g: Graph, c: set<Node>, n: Node) returns (other: Node)
    requires IsCyclicScc(g, c) && n in c && n !in Succ(g, n)
    ensures other in c && other != n
  {
    if |c| > 1 {
      assert |c - {n}| == |c| - 1;
      other :| other in c - {n};
    } else {
      other :| other in c && other in Succ(g, other);
    }
  }

  function IndexOf(s: seq<Node>, x: Node): (i: int)
    ensures -1 <= i < |s|
    ensures i >= 0 ==> s[i] == x
    ensures i >= 0 <==> x in s
  {
    if s == [] then -1
    else if s[0] == x then 0
    else var i := IndexOf(s[1..], x); if i < 0 then -1 else i + 1
  }

  class WitnessSearch {
    const graph: Graph
    const componentSet: set<Node>
    var activePath: seq<Node>
    var visited: set<Node>

    constructor (graph: Graph, component: seq<Node>)
      ensures this.graph == graph && componentSet == Members(component)
      ensures activePath == [] && visited == {}
    {
      this.graph := graph;
      this.componentSet := set n | n in component;
      activePath, visited := [], {};
    }

    /** The active path is a duplicate-free walk of visited members; giving up on a node means a dead end. */
    ghost predicate Valid()
      reads this
    {
      && (activePath == [] || IsWalk(graph, activePath))
      && NoDuplicates(activePath)
      && Members(activePath) <= visited <= componentSet
      && (!(visited <= Members(activePath)) ==> HasDeadEnd(graph, componentSet))
    }

    method Visit(node: Node) returns (r: Option<seq<Node>>)
      requires Valid() && node in componentSet && node !in visited
      requires activePath != [] ==> node in Succ(graph, activePath[|activePath| - 1])
      modifies this
      ensures r.None? ==> Valid() && activePath == old(activePath) && old(visited) < visited
      ensures r.None? ==> HasDeadEnd(graph, componentSet)
      ensures r.Some? ==> IsCycleIn(graph, componentSet, r.value)
      decreases componentSet - visited
    {
      ghost var path := activePath;
      ExtendWalk(graph, path, node);
      activePath := activePath + [node];
      visited := visited + {node};
      assert Members(activePath) == Members(path) + {node};
      for i := 0 to |Succ(graph, node)|
        invariant Valid() && activePath == path + [node]
        invariant old(visited) + {node} <= visited
        invariant HasDeadEnd(graph, componentSet)
                  || forall j :: 0 <= j < i ==> Succ(graph, node)[j] !in componentSet
      {
        var next := Succ(graph, node)[i];
        if next !in componentSet {
          continue;
        }
        var existingIndex := IndexOf(activePath, next);
        if existingIndex >= 0 {
          CloseCycle(graph, componentSet, activePath, next, existingIndex);
          return Some(activePath[existingIndex..] + [next]);
        }
        if next !in visited {
          r := Visit(next);
          if r.Some? {
            return;
          }
        } else {
          assert next in visited && next !in Members(activePath);
        }
        assert HasDeadEnd(graph, componentSet);
      }
      assert HasDeadEnd(graph, componentSet) || IsDeadEnd(graph, componentSet, node);
      activePath := activePath[..|activePath| - 1];
      assert activePath == path;
      return None;
    }
  }

  lemma ExtendWalk(g: Graph, p: seq<Node>, n: Node)
    requires p != [] ==> IsWalk(g, p) && n in Succ(g, p[|p| - 1])
    ensures IsWalk(g, p + [n])
  {
    var q := p + [n];
    forall i: nat | i + 1 < |q|
      ensures EdgeAt(g, q, i)
    {
      if i + 1 < |p| {
        assert EdgeAt(g, p, i);
      }
    }
  }

  lemma CloseCycle(g: Graph, c: set<Node>, p: seq<Node>, next: Node, i: nat)
    requires IsWalk(g, p) && NoDuplicates(p) && Members(p) <= c
    requires i < |p| && p[i] == next && next in Succ(g, p[|p| - 1])
    ensures IsCycleIn(g, c, p[i..] + [next])
  {
    var q := p[i..];
    forall j: nat | j + 1 < |q|
      ensures EdgeAt(g, q, j)
    {
      assert EdgeAt(g, p, i + j);
    }
    ExtendWalk(g, q, next);
    var w := q + [next];
    assert w[..|w| - 1] == q;
    forall n | n in w
      ensures n in c
    {
      assert n in p;
    }
  }

  /** For a cyclic component listed in any order, the walk found is a cycle and never the fallback. */
  method FindCycleWitness(component: seq<Node>, graph: Graph) returns (w: seq<Node>)
    ensures component == [] || component[0] == "" ==> w == []
    ensures component != [] && component[0] != "" && !HasDeadEnd(graph, Members(component))
            ==> IsCycleIn(graph, Members(component), w)
  {
    var start := if |component| > 0 then component[0] else "";
    if start == "" {
      return [];
    }
    var search := new WitnessSearch(graph, component);
    var found := search.Visit(start);
    match found
    case Some(cycle) => w := cycle;
    case None => w := component;
  }

  datatype Verdict = Crash | Exit(code: nat, witnesses: seq<seq<Node>>)

  /** Exit code 0 exactly for acyclic graphs; otherwise exactly one genuine cycle per cyclic component. */
  method CheckImportCycles(graph: Graph) returns (v: Verdict)
    ensures v.Crash? <==> "" in Nodes(graph)
    ensures v.Exit? ==> (v.code == 0 <==> Acyclic(graph)) && v.code <= 1
    ensures v.Exit? ==> forall i :: 0 <= i < |v.witnesses| ==> IsCycleInSomeScc(graph, v.witnesses[i])
    ensures v.Exit? ==> forall c :: IsCyclicScc(graph, c) ==>
                                      exists i :: 0 <= i < |v.witnesses| && IsCycleIn(graph, c, v.witnesses[i])
    ensures v.Exit? ==> exists components :: ReportsCyclicSccs(graph, components)
                                             && OneWitnessEach(graph, components, v.witnesses)
  {
    var r := CollectStronglyConnectedComponents(graph);
    if r.StackUnderflow? {
      return Crash;
    }
    var components := r.value;
    NothingReportedIffAcyclic(graph, components);
    if |components| == 0 {
      assert OneWitnessEach(graph, components, []);
      return Exit(0, []);
    }
    forall i | 0 <= i < |components|
      ensures IsWitnessable(graph, components[i])
    {
      ReportedIsWitnessable(graph, components[i]);
    }
    var witnesses := FindWitnesses(components, graph);
    WitnessesCoverComponents(graph, components, witnesses);
    return Exit(1, witnesses);
  }

  /** The i-th walk is a cycle inside the i-th component, and there are no others. */
  ghost predicate OneWitnessEach(g: Graph, components: seq<seq<Node>>, ws: seq<seq<Node>>) {
    |ws| == |components| && forall i :: 0 <= i < |ws| ==> IsCycleIn(g, Members(components[i]), ws[i])
  }

  ghost predicate IsWitnessable(g: Graph, c: seq<Node>) {
    c != [] && c[0] != "" && !HasDeadEnd(g, Members(c))
  }

  method FindWitnesses(components: seq<seq<Node>>, graph: Graph) returns (ws: seq<seq<Node>>)
    requires forall i :: 0 <= i < |components| ==> IsWitnessable(graph, components[i])
    ensures OneWitnessEach(graph, components, ws)
  {
    ws := [];
    for i := 0 to |components|
      invariant |ws| == i
      invariant forall j :: 0 <= j < i ==> IsCycleIn(graph, Members(components[j]), ws[j])
    {
      var w := FindCycleWitness(components[i], graph);
      ws := ws + [w];
    }
  }

  lemma WitnessesCoverComponents(g: Graph, cs: seq<seq<Node>>, ws: seq<seq<Node>>)
    requires ReportsCyclicSccs(g, cs) && OneWitnessEach(g, cs, ws)
    ensures forall i :: 0 <= i < |ws| ==> IsCycleInSomeScc(g, ws[i])
    ensures forall c :: IsCyclicScc(g, c) ==> exists i :: 0 <= i < |ws| && IsCycleIn(g, c, ws[i])
  {
    forall c | IsCyclicScc(g, c)
      ensures exists i :: 0 <= i < |ws| && IsCycleIn(g, c, ws[i])
    {
      var i :| 0 <= i < |cs| && Members(cs[i]) == c;
      assert IsCycleIn(g, c, ws[i]);
    }
  }

  ghost predicate IsCycleInSomeScc(g: Graph, w: seq<Node>) {
    exists c :: IsCyclicScc(g, c) && IsCycleIn(g, c, w)
  }

  lemma ReportedIsWitnessable(g: Graph, c: seq<Node>)
    requires IsCyclicScc(g, Members(c)) && "" !in Nodes(g)
    ensures IsWitnessable(g, c)
  {
    var n :| n in Members(c);
    CyclicSccHasNoDeadEnd(g, Members(c));
    assert !IsDeadEnd(g, Members(c), c[0]);
    assert c[0] in g;
  }
}

/** Finite directed graphs over names: walks, reachability and cycles. */
module Graph {

  /** The successors of each node, in their recorded order; a name that is no key has none. */
  type Digraph = map<string, seq<string>>

  predicate Edge(g: Digraph, x: string, y: string)
  {
    x in g && y in g[x]
  }

  /** `steps` lists the nodes visited after `x`; the last one is `y`. */
  ghost predicate Path(g: Digraph, x: string, steps: seq<string>, y: string)
    decreases |steps|
  {
    if steps == [] then x == y else Edge(g, x, steps[0]) && Path(g, steps[0], steps[1..], y)
  }

  ghost predicate Reach(g: Digraph, x: string, y: string)
  {
    exists steps :: Path(g, x, steps, y)
  }

  /** `x` lies on a directed cycle; a self-loop is one. */
  ghost predicate OnCycle(g: Digraph, x: string)
  {
    exists y :: Edge(g, x, y) && Reach(g, y, x)
  }

  ghost predicate Acyclic(g: Digraph)
  {
    forall x :: !OnCycle(g, x)
  }

  ghost predicate Closed(g: Digraph, nodes: set<string>)
  {
    forall x, y :: x in nodes && Edge(g, x, y) ==> y in nodes
  }

  lemma ReachSelf(g: Digraph, x: string)
    ensures Reach(g, x, x)
  {
    assert Path(g, x, [], x);
  }

  lemma ReachEdge(g: Digraph, x: string, y: string)
    requires Edge(g, x, y)
    ensures Reach(g, x, y)
  {
    assert Path(g, y, [], y);
    assert Path(g, x, [y], y);
  }

  lemma {:induction false} PathConcat(g: Digraph, x: string, first: seq<string>, y: string, second: seq<string>, z: string)
    requires Path(g, x, first, y) && Path(g, y, second, z)
    ensures Path(g, x, first + second, z)
    decreases |first|
  {
    if first == [] {
      assert first + second == second;
    } else {
      PathConcat(g, first[0], first[1..], y, second, z);
      assert (first + second)[1..] == first[1..] + second;
    }
  }

  lemma ReachTransitive(g: Digraph, x: string, y: string, z: string)
    requires Reach(g, x, y) && Reach(g, y, z)
    ensures Reach(g, x, z)
  {
    var first :| Path(g, x, first, y);
    var second :| Path(g, y, second, z);
    PathConcat(g, x, first, y, second, z);
  }

  /** Every node before a key on a walk is a key. */
  lemma ReachFromKey(g: Digraph, x: string, y: string)
    requires Reach(g, x, y) && y in g
    ensures x in g
  {
    var steps :| Path(g, x, steps, y);
  }

  lemma ReachStep(g: Digraph, x: string, y: string, z: string)
    requires Edge(g, x, y) && Reach(g, y, z)
    ensures Reach(g, x, z)
  {
    ReachEdge(g, x, y);
    ReachTransitive(g, x, y, z);
  }

  /** A cycle can equally be recognised by its last edge. */
  lemma CycleByLastEdge(g: Digraph, x: string, y: string)
    requires Reach(g, x, y) && Edge(g, y, x)
    ensures OnCycle(g, x)
  {
    var steps :| Path(g, x, steps, y);
    if steps == [] {
      ReachSelf(g, x);
    } else {
      assert Path(g, steps[0], steps[1..], y);
      ReachEdge(g, y, x);
      ReachTransitive(g, steps[0], y, x);
    }
  }

  /** A walk out of a set of nodes crosses its border along some edge. */
  lemma {:induction false} Crossing(g: Digraph, nodes: set<string>, x: string, steps: seq<string>, y: string)
    returns (u: string, v: string)
    requires Path(g, x, steps, y) && x in nodes && y !in nodes
    ensures u in nodes && v !in nodes && Edge(g, u, v) && Reach(g, x, u) && Reach(g, v, y)
    decreases |steps|
  {
    if steps[0] in nodes {
      u, v := Crossing(g, nodes, steps[0], steps[1..], y);
      ReachStep(g, x, steps[0], u);
    } else {
      u, v := x, steps[0];
      ReachSelf(g, x);
    }
  }

  /** What is reachable from a closed set stays inside. */
  lemma ClosedReach(g: Digraph, nodes: set<string>, x: string, y: string)
    requires Closed(g, nodes) && x in nodes && Reach(g, x, y)
    ensures y in nodes
  {
    if y !in nodes {
      var steps :| Path(g, x, steps, y);
      var u, v := Crossing(g, nodes, x, steps, y);
    }
  }

  /** A closed set without cycles inside contains no node of a cycle; adding a node all of whose
      successors are inside keeps it so, unless the node was inside already. */
  lemma ClosedExtend(g: Digraph, nodes: set<string>, x: string)
    requires Closed(g, nodes) && x !in nodes
    requires forall y :: Edge(g, x, y) ==> y in nodes
    ensures !OnCycle(g, x) && Closed(g, nodes + {x})
  {
    forall y | Edge(g, x, y) ensures !Reach(g, y, x) {
      if Reach(g, y, x) {
        ClosedReach(g, nodes, y, x);
      }
    }
  }

  /** `s` reaches `x` along at least one edge. */
  ghost predicate LeadsInto(g: Digraph, s: string, x: string)
  {
    exists y :: Edge(g, s, y) && Reach(g, y, x)
  }

  lemma LeadsIntoStep(g: Digraph, s: string, x: string, y: string)
    requires (LeadsInto(g, s, x) || s == x) && Edge(g, x, y)
    ensures LeadsInto(g, s, y)
  {
    if s == x {
      ReachSelf(g, y);
    } else {
      var n :| Edge(g, s, n) && Reach(g, n, x);
      ReachEdge(g, x, y);
      ReachTransitive(g, n, x, y);
    }
  }

  /** From any node of a finite acyclic graph one comes to a node without successors. */
  lemma {:induction false} SinkFrom(g: Digraph, x: string, seen: set<string>) returns (z: string)
    requires Acyclic(g) && seen <= g.Keys
    requires forall s :: s in seen ==> LeadsInto(g, s, x)
    ensures Reach(g, x, z) && forall y :: !Edge(g, z, y)
    decreases |g.Keys - seen|
  {
    if x !in g || g[x] == [] {
      z := x;
      ReachSelf(g, x);
    } else {
      var y := g[x][0];
      assert Edge(g, x, y);
      assert x !in seen by {
        if x in seen {
          assert OnCycle(g, x);
        }
      }
      forall s | s in seen + {x} ensures LeadsInto(g, s, y) {
        LeadsIntoStep(g, s, x, y);
      }
      assert g.Keys - seen == (g.Keys - (seen + {x})) + {x};
      z := SinkFrom(g, y, seen + {x});
      ReachStep(g, x, y, z);
    }
  }

  /** Every edge of `h` is one of `g`. */
  ghost predicate Subgraph(h: Digraph, g: Digraph)
  {
    forall x, y :: Edge(h, x, y) ==> Edge(g, x, y)
  }

  lemma {:induction false} SubgraphPath(h: Digraph, g: Digraph, x: string, steps: seq<string>, y: string)
    requires Subgraph(h, g) && Path(h, x, steps, y)
    ensures Path(g, x, steps, y)
    decreases |steps|
  {
    if steps != [] {
      SubgraphPath(h, g, steps[0], steps[1..], y);
    }
  }

  lemma SubgraphReach(h: Digraph, g: Digraph, x: string, y: string)
    requires Subgraph(h, g) && Reach(h, x, y)
    ensures Reach(g, x, y)
  {
    var steps :| Path(h, x, steps, y);
    SubgraphPath(h, g, x, steps, y);
  }

  lemma SubgraphAcyclic(h: Digraph, g: Digraph)
    requires Subgraph(h, g) && Acyclic(g)
    ensures Acyclic(h)
  {
    forall x ensures !OnCycle(h, x) {
      if OnCycle(h, x) {
        var y :| Edge(h, x, y) && Reach(h, y, x);
        SubgraphReach(h, g, y, x);
        assert OnCycle(g, x);
      }
    }
  }

  /** A walk after `x` received successors either avoids the new edges, or comes to `x` along old edges
      and leaves a new successor along old edges for good. */
  lemma {:induction false} PathSplit(g: Digraph, x: string, successors: seq<string>, u: string, steps: seq<string>, v: string)
    requires x !in g && Path(g[x := successors], u, steps, v)
    ensures Path(g, u, steps, v) || (Reach(g, u, x) && exists n :: n in successors && Reach(g, n, v))
    decreases |steps|
  {
    if steps != [] {
      PathSplit(g, x, successors, steps[0], steps[1..], v);
      if u == x {
        ReachSelf(g, x);
        if Path(g, steps[0], steps[1..], v) {
          assert steps[0] in successors && Reach(g, steps[0], v);
        }
      } else {
        assert Edge(g, u, steps[0]);
        if !Path(g, steps[0], steps[1..], v) {
          ReachStep(g, u, steps[0], x);
        }
      }
    }
  }

  /** Giving successors to a node that had none closes a cycle exactly when one of them reaches it. */
  lemma AcyclicExtend(g: Digraph, x: string, successors: seq<string>)
    requires Acyclic(g) && x !in g
    ensures Acyclic(g[x := successors]) <==> forall n :: n in successors ==> !Reach(g, n, x)
  {
    var h := g[x := successors];
    if n :| n in successors && Reach(g, n, x) {
      SubgraphReach(g, h, n, x);
      assert Edge(h, x, n) && OnCycle(h, x);
    } else {
      forall a ensures !OnCycle(h, a) {
        if OnCycle(h, a) {
          var y :| Edge(h, a, y) && Reach(h, y, a);
          var steps :| Path(h, y, steps, a);
          CycleSplit(g, x, successors, a, [y] + steps);
        }
      }
    }
  }

  lemma CycleSplit(g: Digraph, x: string, successors: seq<string>, a: string, steps: seq<string>)
    requires Acyclic(g) && x !in g && steps != [] && Path(g[x := successors], a, steps, a)
    ensures exists n :: n in successors && Reach(g, n, x)
  {
    PathSplit(g, x, successors, a, steps, a);
    if Path(g, a, steps, a) {
      assert Edge(g, a, steps[0]) && Path(g, steps[0], steps[1..], a);
      assert OnCycle(g, a);
    } else {
      var n :| n in successors && Reach(g, n, a);
      ReachTransitive(g, n, a, x);
    }
  }
}

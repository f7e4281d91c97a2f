/** The three-colour cycle check of the atomic corpus (knowledge-corpus/validate.py). */
module DerivationGraph {
  import opened Graph
  import opened Ordering

  /** An assertion with its basis when its provenance is derived. */
  datatype Assertion = Assertion(id: string, basis: Option<seq<string>>)

  datatype Verdict =
    | Accepted
    | SelfReference(id: string)
    | UnknownBasis(id: string, missing: seq<string>)
    | Cycle(walk: seq<string>)

  /** Consecutive nodes of the walk are joined by edges. */
  ghost predicate Walk(g: Digraph, walk: seq<string>)
  {
    |walk| <= 1
    || (Walk(g, walk[..|walk| - 1]) && Edge(g, walk[|walk| - 2], walk[|walk| - 1]))
  }

  /** The last node of the walk is an earlier one again. */
  ghost predicate ClosesCycle(g: Digraph, walk: seq<string>)
  {
    |walk| >= 2 && Walk(g, walk) && walk[|walk| - 1] in walk[..|walk| - 1]
  }

  lemma {:induction false} WalkReaches(g: Digraph, walk: seq<string>, i: nat)
    requires Walk(g, walk) && i < |walk|
    ensures Reach(g, walk[i], walk[|walk| - 1])
  {
    if i == |walk| - 1 {
      ReachSelf(g, walk[i]);
    } else {
      WalkReaches(g, walk[..|walk| - 1], i);
      ReachEdge(g, walk[|walk| - 2], walk[|walk| - 1]);
      ReachTransitive(g, walk[i], walk[|walk| - 2], walk[|walk| - 1]);
    }
  }

  /** A reported walk really contains a cycle. */
  lemma ClosedWalkIsCyclic(g: Digraph, walk: seq<string>)
    requires ClosesCycle(g, walk)
    ensures OnCycle(g, walk[|walk| - 1])
  {
    var init := walk[..|walk| - 1];
    var i :| 0 <= i < |init| && init[i] == walk[|walk| - 1];
    WalkReaches(g, init, i);
    CycleByLastEdge(g, walk[|walk| - 1], walk[|walk| - 2]);
  }

  function Nodes(path: seq<string>): set<string>
  {
    set x | x in path
  }

  lemma NodesExtend(path: seq<string>, node: string)
    ensures Nodes(path + [node]) == Nodes(path) + {node}
  {
  }

  lemma UnseenSplit(keys: set<string>, visiting: set<string>, before: set<string>, node: string)
    requires node !in before && visiting == before + {node}
    ensures keys - before == keys - (visiting - {node}) && visiting - {node} == before
  {
  }

  /** Nodes in the order in which they were finished: every successor of a node comes before it. */
  ghost predicate Topological(g: Digraph, finished: seq<string>)
  {
    finished == []
    || (var last, init := finished[|finished| - 1], finished[..|finished| - 1];
        Topological(g, init) && last !in init && forall y :: Edge(g, last, y) ==> y in init)
  }

  lemma {:induction false} TopologicalIsAcyclic(g: Digraph, finished: seq<string>)
    requires Topological(g, finished)
    ensures Closed(g, Nodes(finished)) && forall x :: x in finished ==> !OnCycle(g, x)
  {
    if finished != [] {
      var last, init := finished[|finished| - 1], finished[..|finished| - 1];
      TopologicalIsAcyclic(g, init);
      ClosedExtend(g, Nodes(init), last);
      assert finished == init + [last];
      assert Nodes(finished) == Nodes(init) + {last};
    }
  }

  /** Once all nodes with edges are finished no node is on a cycle. */
  lemma FinishedIsAcyclic(g: Digraph, finished: seq<string>)
    requires Topological(g, finished) && g.Keys <= Nodes(finished)
    ensures Acyclic(g)
  {
    TopologicalIsAcyclic(g, finished);
    forall x ensures !OnCycle(g, x) {
      if x !in g {
        assert forall y :: !Edge(g, x, y);
      }
    }
  }

  lemma TopologicalExtend(g: Digraph, finished: seq<string>, node: string)
    requires Topological(g, finished) && node !in finished
    requires forall y :: Edge(g, node, y) ==> y in finished
    ensures Topological(g, finished + [node]) && Nodes(finished + [node]) == Nodes(finished) + {node}
  {
    assert (finished + [node])[..|finished|] == finished;
  }

  lemma WalkExtend(g: Digraph, walk: seq<string>, next: string)
    requires walk != [] && Walk(g, walk) && Edge(g, walk[|walk| - 1], next)
    ensures Walk(g, walk + [next])
    ensures next in walk ==> ClosesCycle(g, walk + [next])
  {
    assert (walk + [next])[..|walk|] == walk;
  }

  /** The nested `visit` and the two sets it closes over. */
  class Colouring {
    const graph: Digraph
    var visiting: set<string>
    var visited: set<string>
    ghost var finished: seq<string>

    constructor (g: Digraph)
      ensures graph == g && Valid() && visiting == {}
    {
      graph := g;
      visiting, visited, finished := {}, {}, [];
    }

    ghost predicate Valid()
      reads this
    {
      visiting !! visited && visited == Nodes(finished) && Topological(graph, finished)
    }

    method Visit(node: string, path: seq<string>) returns (cycle: Option<seq<string>>)
      requires Valid()
      requires visiting == Nodes(path)
      requires Walk(graph, path + [node])
      requires node in path ==> ClosesCycle(graph, path + [node])
      modifies this
      ensures cycle.Some? ==> ClosesCycle(graph, cycle.value)
      ensures cycle.None? ==> Valid() && visiting == old(visiting) && old(visited) <= visited && node in visited
      decreases |graph.Keys - visiting|, 1
    {
      if node in visiting {
        return Some(path + [node]);
      }
      if node in visited {
        return None;
      }
      ghost var unseen := graph.Keys - visiting;
      visiting := visiting + {node};
      NodesExtend(path, node);
      UnseenSplit(graph.Keys, visiting, old(visiting), node);
      cycle := VisitParents(node, path + [node], unseen);
      if cycle.Some? {
        return;
      }
      visiting := visiting - {node};
      TopologicalExtend(graph, finished, node);
      visited, finished := visited + {node}, finished + [node];
    }

    /** The loop over the bases of `node`, which is the end of the current path. */
    method VisitParents(node: string, path: seq<string>, ghost unseen: set<string>) returns (cycle: Option<seq<string>>)
      requires Valid() && path != [] && path[|path| - 1] == node
      requires visiting == Nodes(path)
      requires Walk(graph, path)
      requires unseen == graph.Keys - (visiting - {node})
      modifies this
      ensures cycle.Some? ==> ClosesCycle(graph, cycle.value)
      ensures cycle.None? ==> Valid() && visiting == old(visiting) && old(visited) <= visited
      ensures cycle.None? ==> forall y :: Edge(graph, node, y) ==> y in visited
      decreases |unseen|, 0
    {
      cycle := None;
      if node !in graph {
        return;
      }
      var parents := graph[node];
      assert node in Nodes(path);
      UnseenShrinks(graph.Keys, visiting, node);
      for k := 0 to |parents|
        invariant cycle.None? && Valid() && visiting == old(visiting) && old(visited) <= visited
        invariant forall i :: 0 <= i < k ==> parents[i] in visited
      {
        assert Edge(graph, node, parents[k]);
        WalkExtend(graph, path, parents[k]);
        cycle := Visit(parents[k], path);
        if cycle.Some? {
          return;
        }
      }
    }
  }

  lemma UnseenShrinks(keys: set<string>, visiting: set<string>, node: string)
    requires node in keys && node in visiting
    ensures |keys - visiting| < |keys - (visiting - {node})|
  {
    assert keys - (visiting - {node}) == (keys - visiting) + {node};
  }

  // ---------------------------------------------------------------- the whole check

  ghost predicate UniqueIds(assertions: seq<Assertion>)
  {
    forall i, j :: 0 <= i < j < |assertions| ==> assertions[i].id != assertions[j].id
  }

  function Ids(assertions: seq<Assertion>): set<string>
  {
    set a | a in assertions :: a.id
  }

  /** The graph from derived assertions to their bases. */
  function BasisGraph(assertions: seq<Assertion>): Digraph
  {
    if assertions == [] then map[]
    else
      var last := assertions[|assertions| - 1];
      var g := BasisGraph(assertions[..|assertions| - 1]);
      if last.basis.Some? then g[last.id := last.basis.value] else g
  }

  lemma {:induction false} BasisGraphKeys(assertions: seq<Assertion>)
    ensures forall x :: x in BasisGraph(assertions) <==> exists a :: a in assertions && a.id == x && a.basis.Some?
  {
    if assertions != [] {
      var last, init := assertions[|assertions| - 1], assertions[..|assertions| - 1];
      assert assertions == init + [last];
      BasisGraphKeys(init);
      assert forall a :: a in assertions <==> a in init || a == last;
    }
  }

  lemma {:induction false} BasisGraphValues(assertions: seq<Assertion>)
    requires UniqueIds(assertions)
    ensures forall a :: a in assertions && a.basis.Some? ==>
              a.id in BasisGraph(assertions) && BasisGraph(assertions)[a.id] == a.basis.value
  {
    if assertions != [] {
      var last, init := assertions[|assertions| - 1], assertions[..|assertions| - 1];
      assert assertions == init + [last];
      BasisGraphValues(init);
      assert forall a :: a in init ==> a.id != last.id;
      assert forall a :: a in assertions <==> a in init || a == last;
    }
  }

  lemma BasisGraphEdges(assertions: seq<Assertion>)
    requires UniqueIds(assertions)
    ensures forall x :: x in BasisGraph(assertions)
              <==> exists a :: a in assertions && a.id == x && a.basis.Some?
    ensures forall a :: a in assertions && a.basis.Some? ==>
              a.id in BasisGraph(assertions) && BasisGraph(assertions)[a.id] == a.basis.value
  {
    BasisGraphKeys(assertions);
    BasisGraphValues(assertions);
  }

  ghost predicate BasesExist(assertions: seq<Assertion>)
  {
    forall a, b :: a in assertions && a.basis.Some? && b in a.basis.value ==> b in Ids(assertions)
  }

  function Missing(basis: seq<string>, known: set<string>): (missing: seq<string>)
    ensures forall b :: b in missing <==> b in basis && b !in known
  {
    if basis == [] then []
    else (if basis[0] !in known then [basis[0]] else []) + Missing(basis[1..], known)
  }

  /** No node has an edge to itself. */
  ghost predicate SelfFree(g: Digraph)
  {
    forall x :: !Edge(g, x, x)
  }

  lemma NoSelfEdge(g: Digraph, x: string, targets: seq<string>)
    requires SelfFree(g) && x !in targets
    ensures SelfFree(g[x := targets])
  {
    var more := g[x := targets];
    forall y ensures !Edge(more, y, y) {
      assert !Edge(g, y, y);
    }
  }

  /** Everything the verdict promises about the assertions. */
  ghost predicate Justified(assertions: seq<Assertion>, verdict: Verdict)
  {
    var g := BasisGraph(assertions);
    match verdict
    case Accepted => BasesExist(assertions) && Acyclic(g)
    case SelfReference(id) => Edge(g, id, id)
    case UnknownBasis(id, missing) =>
      missing != [] && forall b :: b in missing <==> Edge(g, id, b) && b !in Ids(assertions)
    case Cycle(walk) => BasesExist(assertions) && SelfFree(g) && ClosesCycle(g, walk)
  }

  /** `validate_derivation_graph`. */
  method ValidateDerivationGraph(assertions: seq<Assertion>) returns (verdict: Verdict)
    requires UniqueIds(assertions)
    ensures Justified(assertions, verdict)
  {
    var known := Ids(assertions);
    var graph: Digraph := map[];
    BasisGraphEdges(assertions);
    for k := 0 to |assertions|
      invariant graph == BasisGraph(assertions[..k])
      invariant forall a, b :: a in assertions[..k] && a.basis.Some? && b in a.basis.value ==> b in known
      invariant SelfFree(graph)
    {
      var assertion := assertions[k];
      assert assertion in assertions;
      assert assertions[..k + 1][..k] == assertions[..k];
      assert forall a :: a in assertions[..k + 1] <==> a in assertions[..k] || a == assertion;
      if assertion.basis.Some? {
        var basis := assertion.basis.value;
        if assertion.id in basis {
          return SelfReference(assertion.id);
        }
        var missing := Missing(basis, known);
        if missing != [] {
          assert missing[0] in missing;
          return UnknownBasis(assertion.id, missing);
        }
        NoSelfEdge(graph, assertion.id, basis);
        graph := graph[assertion.id := basis];
      }
    }
    assert assertions[..|assertions|] == assertions;
    var colouring := new Colouring(graph);
    var pending := graph.Keys;
    while pending != {}
      invariant pending <= graph.Keys
      invariant colouring.graph == graph && colouring.Valid() && colouring.visiting == {}
      invariant graph.Keys - pending <= colouring.visited
      decreases |pending|
    {
      var node :| node in pending;
      var cycle := colouring.Visit(node, []);
      if cycle.Some? {
        return Cycle(cycle.value);
      }
      pending := pending - {node};
    }
    FinishedIsAcyclic(graph, colouring.finished);
    return Accepted;
  }

  /** The check accepts exactly when all bases exist and no derived assertion rests on itself. */
  lemma AcceptedExactly(assertions: seq<Assertion>, verdict: Verdict)
    requires UniqueIds(assertions) && Justified(assertions, verdict)
    ensures verdict == Accepted <==> BasesExist(assertions) && Acyclic(BasisGraph(assertions))
  {
    var g := BasisGraph(assertions);
    BasisGraphEdges(assertions);
    match verdict
    case Accepted =>
    case SelfReference(id) =>
      ReachSelf(g, id);
      assert OnCycle(g, id);
    case UnknownBasis(id, missing) =>
      assert missing[0] in missing;
      assert Edge(g, id, missing[0]);
    case Cycle(walk) =>
      ClosedWalkIsCyclic(g, walk);
  }
}

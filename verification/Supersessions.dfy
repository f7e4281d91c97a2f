/** Replacement edges: the admission check of one edge and the restoration of a whole set of rows
    (src/atlas/store.py, `_validate_supersessions` to `_validate_supersession_candidate`). */
module Supersessions {
  import opened Graph
  import opened LineageTheorems
  import opened Lineage
  import opened Model
  import opened Ordering

  // ---------------------------------------------------------------- one edge

  /** `_supersession_slot`: two records may replace each other only within one semantic slot. */
  predicate SameSlot(a: Record, b: Record)
  {
    match (a, b)
    case (Property(_, d, p, v, x, _, _, _), Property(_, d', p', v', x', _, _, _)) =>
      d == d' && p == p' && v == v' && x.Kind() == x'.Kind()
    case (Relation(_, p, v, ps, pol, _, _, _, _), Relation(_, p', v', ps', pol', _, _, _, _)) =>
      p == p' && v == v' && ps == ps' && pol == pol'
    case _ => false
  }

  /** The local tests on an edge, before the graph is looked at. */
  predicate Wellplaced(st: StoreState, e: Supersession)
  {
    && e.retired != e.replacement
    && e.retired in st.records && e.replacement in st.records
    && SameSlot(st.records[e.retired], st.records[e.replacement])
    && e.snapshot in st.snapshots
    && e.retired in st.snapshots[e.snapshot].records && e.replacement in st.snapshots[e.snapshot].records
  }

  /** The walk from `start` along a functional graph; it stops at a node without successor or at a repetition. */
  method WalkRepeats(next: map<Id, Id>, start: Id) returns (repeats: bool, seen: set<Id>, last: Id)
    ensures repeats ==> Reach(Links(next), start, last) && OnCycle(Links(next), last)
    ensures !repeats ==> !exists x :: Reach(Links(next), start, x) && OnCycle(Links(next), x)
    ensures forall x :: x in seen ==> x in next && Reach(Links(next), start, x)
    ensures forall x :: repeats && Reach(Links(next), start, x) ==> x in seen
  {
    var current := start;
    seen := {};
    repeats, last := false, start;
    ghost var g := Links(next);
    ReachSelf(g, start);
    while current in next
      invariant Trail(next, start, seen, current)
      decreases |next.Keys - seen|
    {
      if current in seen {
        TrailCloses(next, start, seen, current);
        return true, seen, current;
      }
      TrailStep(next, start, seen, current);
      Fewer(next.Keys, seen, current);
      seen := seen + {current};
      current := next[current];
    }
    TrailEnds(next, start, seen, current);
  }

  function Links(next: map<Id, Id>): Digraph
  {
    map x | x in next :: [next[x]]
  }

  /** The nodes behind the walker: each is followed by one behind it or by the walker's position. */
  ghost predicate Trail(next: map<Id, Id>, start: Id, seen: set<Id>, current: Id)
  {
    var g := Links(next);
    && seen <= next.Keys && start in seen + {current}
    && (forall x :: x in seen ==> next[x] in seen + {current})
    && (forall x :: x in seen + {current} ==> Reach(g, start, x))
    && (forall x :: x in seen ==> LeadsInto(g, x, current))
  }

  lemma TrailStep(next: map<Id, Id>, start: Id, seen: set<Id>, current: Id)
    requires Trail(next, start, seen, current) && current in next
    ensures Trail(next, start, seen + {current}, next[current])
  {
    var g := Links(next);
    assert Edge(g, current, next[current]);
    ReachEdge(g, current, next[current]);
    ReachTransitive(g, start, current, next[current]);
    forall x | x in seen + {current} ensures LeadsInto(g, x, next[current]) {
      LeadsIntoStep(g, x, current, next[current]);
    }
  }

  lemma TrailCloses(next: map<Id, Id>, start: Id, seen: set<Id>, current: Id)
    requires Trail(next, start, seen, current) && current in seen
    ensures OnCycle(Links(next), current)
    ensures forall x :: Reach(Links(next), start, x) ==> x in seen
  {
    LeadsIntoSelf(Links(next), current);
    TrailCovers(next, start, seen);
  }

  lemma LeadsIntoSelf(g: Digraph, x: Id)
    requires LeadsInto(g, x, x)
    ensures OnCycle(g, x)
  {
  }

  lemma TrailCovers(next: map<Id, Id>, start: Id, seen: set<Id>)
    requires start in seen && forall x :: x in seen ==> x in next && next[x] in seen
    ensures forall x :: Reach(Links(next), start, x) ==> x in seen
  {
    var g := Links(next);
    assert Closed(g, seen);
    forall x | Reach(g, start, x) ensures x in seen {
      ClosedReach(g, seen, start, x);
    }
  }

  lemma TrailEnds(next: map<Id, Id>, start: Id, seen: set<Id>, current: Id)
    requires Trail(next, start, seen, current) && current !in next
    ensures forall x :: Reach(Links(next), start, x) ==> !OnCycle(Links(next), x)
  {
    var g := Links(next);
    assert Closed(g, seen + {current});
    forall x | Reach(g, start, x) ensures !OnCycle(g, x) {
      ClosedReach(g, seen + {current}, start, x);
      if OnCycle(g, x) {
        var y :| Edge(g, x, y) && Reach(g, y, x);
        assert x in seen;
        SinkOffCycle(next, x, current);
      }
    }
  }

  /** In a functional graph, what leads into a node without successor lies on no cycle. */
  lemma SinkOffCycle(next: map<Id, Id>, x: Id, sink: Id)
    requires sink !in next && LeadsInto(Links(next), x, sink)
    ensures !OnCycle(Links(next), x)
  {
    var g := Links(next);
    var y :| Edge(g, x, y) && Reach(g, y, sink);
    ReachStep(g, x, y, sink);
    if OnCycle(g, x) {
      var cycle := set z | z in next && Reach(g, x, z) && Reach(g, z, x);
      ReachSelf(g, x);
      forall a, b | a in cycle && Edge(g, a, b) ensures b in cycle {
        CycleSuccessor(next, x, a, b);
      }
      ClosedReach(g, cycle, x, sink);
    }
  }

  lemma CycleSuccessor(next: map<Id, Id>, x: Id, a: Id, b: Id)
    requires OnCycle(Links(next), x) && Reach(Links(next), x, a) && Reach(Links(next), a, x) && Edge(Links(next), a, b)
    ensures b in next && Reach(Links(next), x, b) && Reach(Links(next), b, x)
  {
    var g := Links(next);
    ReachEdge(g, a, b);
    ReachTransitive(g, x, a, b);
    if a == x {
      var y :| Edge(g, x, y) && Reach(g, y, x);
      assert y == b;
    } else {
      var steps :| Path(g, a, steps, x);
      assert steps[0] == b && Path(g, b, steps[1..], x);
    }
    ReachFromKey(g, b, x);
  }

  /** The check over all starts: exactly acyclicity. */
  method HasNoCycle(next: map<Id, Id>) returns (ok: bool)
    ensures ok <==> Acyclic(Links(next))
  {
    var g := Links(next);
    var pending := next.Keys;
    while pending != {}
      invariant pending <= next.Keys
      invariant forall x :: x in next && x !in pending ==> !OnCycle(g, x)
      decreases |pending|
    {
      var start :| start in pending;
      var repeats, seen, last := WalkRepeats(next, start);
      if repeats {
        return false;
      }
      ReachSelf(g, start);
      pending := pending - {start};
    }
    forall x ensures !OnCycle(g, x) {
      assert x !in next ==> forall y :: !Edge(g, x, y);
    }
    return true;
  }

  function Replacements(edges: map<Id, Supersession>): map<Id, Id>
  {
    map r | r in edges :: edges[r].replacement
  }

  lemma LinksOfReplacements(edges: map<Id, Supersession>)
    ensures Links(Replacements(edges)) == ReplacementGraph(edges)
  {
  }

  /** What `supersede` demands of an edge. */
  ghost predicate Admissible(st: StoreState, e: Supersession)
  {
    Wellplaced(st, e) && Acyclic(ReplacementGraph(st.supersessions[e.retired := e]))
    && e.retired !in st.supersessions
  }

  /** For an acyclic relation the graph test refuses exactly a replacement that already leads to the retired record. */
  lemma AdmissibleExactly(st: StoreState, e: Supersession)
    requires Acyclic(ReplacementGraph(st.supersessions))
    ensures Admissible(st, e)
       <==> && Wellplaced(st, e) && e.retired !in st.supersessions
            && !Reach(ReplacementGraph(st.supersessions), e.replacement, e.retired)
  {
    if e.retired !in st.supersessions {
      var g := ReplacementGraph(st.supersessions);
      AcyclicExtend(g, e.retired, [e.replacement]);
      assert ReplacementGraph(st.supersessions[e.retired := e]) == g[e.retired := [e.replacement]];
    }
  }
}

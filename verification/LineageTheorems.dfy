/** What the effective view means on the snapshot tree, and what a new replacement edge changes. */
module LineageTheorems {
  import opened Graph
  import opened Lineage
  import opened Model
  import opened Ordering

  // ---------------------------------------------------------------- hypotheses of a live store

  /** A snapshot holds every record its parent held: records are only ever added. */
  ghost predicate RecordsGrow(snapshots: map<Id, Snapshot>)
  {
    forall s, p :: s in snapshots && snapshots[s].parent == Some(p) && p in snapshots ==>
      RecordSet(snapshots[p]) <= RecordSet(snapshots[s])
  }

  function ReplacementGraph(edges: map<Id, Supersession>): Digraph
  {
    map r | r in edges :: [edges[r].replacement]
  }

  /** Both ends of every edge belong to the snapshot it was made at. */
  ghost predicate Anchored(st: StoreState)
  {
    forall r :: r in st.supersessions ==>
      var e := st.supersessions[r];
      && e.snapshot in st.snapshots
      && r in RecordSet(st.snapshots[e.snapshot])
      && e.replacement in RecordSet(st.snapshots[e.snapshot])
  }

  // ---------------------------------------------------------------- branches

  /** Everything visible from a snapshot is visible from its descendants. */
  lemma VisibleMonotone(st: StoreState, lower: Id, upper: Id)
    requires Descends(st.snapshots, lower, upper)
    ensures Visible(st, upper) <= Visible(st, lower)
  {
    forall r | r in Visible(st, upper) ensures r in Visible(st, lower) {
      ReachTransitive(ParentGraph(st.snapshots), lower, upper, st.supersessions[r].snapshot);
    }
  }

  lemma {:induction false} RecordsOfAncestor(snapshots: map<Id, Snapshot>, lower: Id, steps: seq<Id>, upper: Id)
    requires ParentsPresent(snapshots) && RecordsGrow(snapshots) && lower in snapshots
    requires Path(ParentGraph(snapshots), lower, steps, upper)
    ensures upper in snapshots && RecordSet(snapshots[upper]) <= RecordSet(snapshots[lower])
    decreases |steps|
  {
    if steps != [] {
      assert snapshots[lower].parent == Some(steps[0]);
      RecordsOfAncestor(snapshots, steps[0], steps[1..], upper);
    }
  }

  // ---------------------------------------------------------------- the view as a fixed point

  /** A record is effective exactly when it passes the replacement tests and, if derived, all its
      dependencies are effective. */
  lemma EffectiveUnfolds(st: StoreState, snapshot: Id, x: Id)
    requires snapshot in st.snapshots
    ensures x in Effective(st, snapshot)
       <==> && x in Base(st, snapshot)
            && (x in st.derivations ==> forall d :: d in st.derivations[x].dependencies ==> d in Effective(st, snapshot) || d == x)
  {
    var base, effective := Base(st, snapshot), Effective(st, snapshot);
    assert GreatestSupported(st.derivations, base, effective);
    if x in effective {
      assert !Unsupported(st.derivations, effective, x);
    } else if x in base && (x in st.derivations ==> forall d :: d in st.derivations[x].dependencies ==> d in effective || d == x) {
      var larger := effective + {x};
      forall y | y in larger ensures !Unsupported(st.derivations, larger, y) {
        if y in effective {
          assert !Unsupported(st.derivations, effective, y);
        }
      }
      assert Supported(st.derivations, larger) && larger <= base;
    }
  }

  /** The dependency closure of an effective record is effective. */
  lemma EffectiveClosed(st: StoreState, snapshot: Id, x: Id, y: Id)
    requires snapshot in st.snapshots && x in Effective(st, snapshot)
    requires Reach(DependencyGraph(st.derivations), x, y)
    ensures y in Effective(st, snapshot)
  {
    var effective := Effective(st, snapshot);
    assert Supported(st.derivations, effective);
    forall a, b | a in effective && Edge(DependencyGraph(st.derivations), a, b) ensures b in effective {
      assert !Unsupported(st.derivations, effective, a);
    }
    ClosedReach(DependencyGraph(st.derivations), effective, x, y);
  }

  function DependencyGraph(derivations: map<Id, Derivation>): Digraph
  {
    map d | d in derivations :: derivations[d].dependencies
  }

  // ---------------------------------------------------------------- following replacements

  function VisibleGraph(edges: map<Id, Supersession>, visible: set<Id>): Digraph
  {
    map r | r in edges && r in visible :: [edges[r].replacement]
  }

  lemma {:induction false} VisibleChainStays(st: StoreState, snapshot: Id, r: Id, steps: seq<Id>, z: Id)
    requires ParentsPresent(st.snapshots) && RecordsGrow(st.snapshots) && Anchored(st) && snapshot in st.snapshots
    requires r in RecordSet(st.snapshots[snapshot])
    requires Path(VisibleGraph(st.supersessions, Visible(st, snapshot)), r, steps, z)
    ensures z in RecordSet(st.snapshots[snapshot])
    ensures steps != [] ==> z in Targets(st.supersessions, Visible(st, snapshot))
    decreases |steps|
  {
    if steps != [] {
      var e := st.supersessions[r];
      assert steps[0] == e.replacement;
      var up :| Path(ParentGraph(st.snapshots), snapshot, up, e.snapshot);
      RecordsOfAncestor(st.snapshots, snapshot, up, e.snapshot);
      VisibleChainStays(st, snapshot, steps[0], steps[1..], z);
    }
  }

  /**
   * Following visible edges from a replaced record of the snapshot ends at one of its records that is
   * replaced no further; that record is effective unless it is derived.
   */
  lemma ReplacedEndsEffective(st: StoreState, snapshot: Id, r: Id) returns (z: Id)
    requires ParentsPresent(st.snapshots) && RecordsGrow(st.snapshots) && Anchored(st)
    requires Acyclic(ReplacementGraph(st.supersessions))
    requires snapshot in st.snapshots && r in RecordSet(st.snapshots[snapshot]) && r in Visible(st, snapshot)
    ensures Reach(VisibleGraph(st.supersessions, Visible(st, snapshot)), r, z)
    ensures z !in Visible(st, snapshot) && z in Base(st, snapshot)
    ensures z !in st.derivations ==> z in Effective(st, snapshot)
  {
    var visible := Visible(st, snapshot);
    var g := VisibleGraph(st.supersessions, visible);
    SubgraphAcyclic(g, ReplacementGraph(st.supersessions));
    z := SinkFrom(g, r, {});
    assert z !in visible by {
      if z in visible {
        assert Edge(g, z, st.supersessions[z].replacement);
      }
    }
    var steps :| Path(g, r, steps, z);
    VisibleChainStays(st, snapshot, r, steps, z);
    EffectiveUnfolds(st, snapshot, z);
  }

  // ---------------------------------------------------------------- adding an edge

  function WithEdge(st: StoreState, e: Supersession): StoreState
  {
    st.(supersessions := st.supersessions[e.retired := e])
  }

  /** On a branch that the edge does not reach, the edge can only hide its replacement. */
  lemma BaseOffBranch(st: StoreState, e: Supersession, snapshot: Id)
    requires snapshot in st.snapshots && e.retired !in st.supersessions
    requires !Descends(st.snapshots, snapshot, e.snapshot)
    ensures Visible(WithEdge(st, e), snapshot) == Visible(st, snapshot)
    ensures Base(WithEdge(st, e), snapshot)
         == Base(st, snapshot) - ({e.replacement} - Targets(st.supersessions, Visible(st, snapshot)))
  {
    var st' := WithEdge(st, e);
    var visible := Visible(st, snapshot);
    assert Visible(st', snapshot) == visible;
    forall x ensures x in Targets(st'.supersessions, visible) <==> x in Targets(st.supersessions, visible) {
      if x in Targets(st.supersessions, visible) {
        var r :| r in visible && st.supersessions[r].replacement == x;
        assert st'.supersessions[r].replacement == x;
      }
    }
    forall x
      ensures x in Targets(st'.supersessions, st'.supersessions.Keys)
         <==> x in Targets(st.supersessions, st.supersessions.Keys) || x == e.replacement
    {
      if x in Targets(st.supersessions, st.supersessions.Keys) {
        var r :| r in st.supersessions && st.supersessions[r].replacement == x;
        assert st'.supersessions[r].replacement == x;
      }
      assert st'.supersessions[e.retired].replacement == e.replacement;
    }
  }

  /** Taking one record away from the base leaves the view alone exactly when it was not effective. */
  lemma PruneWithout(derivations: map<Id, Derivation>, base: set<Id>, x: Id)
    ensures Prune(derivations, base - {x}) == Prune(derivations, base) <==> x !in Prune(derivations, base)
  {
    var full, less := Prune(derivations, base), Prune(derivations, base - {x});
    assert GreatestSupported(derivations, base, full) && GreatestSupported(derivations, base - {x}, less);
    if x !in full {
      assert full <= less && less <= full;
    }
  }

  /**
   * The effect of an edge made at a snapshot on every snapshot that does not descend from it: the view
   * there stays the same exactly when the replacement was not effective there, or is the replacement
   * of an edge visible there.
   */
  lemma EdgeOffBranchExactly(st: StoreState, e: Supersession, snapshot: Id)
    requires snapshot in st.snapshots && e.retired !in st.supersessions
    requires !Descends(st.snapshots, snapshot, e.snapshot)
    ensures Effective(WithEdge(st, e), snapshot) == Effective(st, snapshot)
       <==> || e.replacement !in Effective(st, snapshot)
            || e.replacement in Targets(st.supersessions, Visible(st, snapshot))
  {
    BaseOffBranch(st, e, snapshot);
    if e.replacement !in Targets(st.supersessions, Visible(st, snapshot)) {
      assert Base(WithEdge(st, e), snapshot) == Base(st, snapshot) - {e.replacement};
      PruneWithout(st.derivations, Base(st, snapshot), e.replacement);
    } else {
      assert Base(WithEdge(st, e), snapshot) == Base(st, snapshot);
    }
  }

  /** In particular a snapshot that does not hold the replacement is unaffected from another branch. */
  lemma EdgeElsewhere(st: StoreState, e: Supersession, snapshot: Id)
    requires snapshot in st.snapshots && e.retired !in st.supersessions
    requires !Descends(st.snapshots, snapshot, e.snapshot)
    requires e.replacement !in RecordSet(st.snapshots[snapshot])
    ensures Visible(WithEdge(st, e), snapshot) == Visible(st, snapshot)
    ensures Effective(WithEdge(st, e), snapshot) == Effective(st, snapshot)
  {
    BaseOffBranch(st, e, snapshot);
    assert Effective(st, snapshot) <= Base(st, snapshot);
    EdgeOffBranchExactly(st, e, snapshot);
  }

  /** On its own branch the edge retires its record for good: no later edge makes it effective again. */
  lemma RetiredStaysRetired(st: StoreState, e: Supersession, lower: Id)
    requires lower in st.snapshots && e.retired in st.supersessions && st.supersessions[e.retired] == e
    requires Descends(st.snapshots, lower, e.snapshot)
    ensures e.retired !in Effective(st, lower)
    ensures forall x :: Reach(DependencyGraph(st.derivations), x, e.retired) ==> x !in Effective(st, lower)
  {
    assert Effective(st, lower) <= Base(st, lower);
    forall x | Reach(DependencyGraph(st.derivations), x, e.retired) ensures x !in Effective(st, lower) {
      if x in Effective(st, lower) {
        EffectiveClosed(st, lower, x, e.retired);
      }
    }
  }
}

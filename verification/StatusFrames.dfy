/** The standing of stored decisions is unaffected by steps that only add. */
module StatusFrames {
  import opened Graph
  import opened Lineage
  import opened LineageTheorems
  import opened Model
  import opened Ordering
  import opened Problems
  import opened RestoreClosure
  import opened Rules
  import opened RuleTheorems
  import opened Scopes
  import opened Selections
  import opened Statuses
  import opened StoreFrames
  import opened StoreInvariants
  import opened StoreSteps
  import opened Traversal

  lemma DiscoverFrame(st: StoreState, later: StoreState, scope: DecisionScope, candidate: Id, effective: set<Id>)
    requires Extends(st, later) && effective <= st.records.Keys
    requires scope.snapshot in st.snapshots && scope.context in st.snapshots[scope.snapshot].contexts
    ensures Discover(later, scope, candidate, effective) == Discover(st, scope, candidate, effective)
  {
    var snap := st.snapshots[scope.snapshot];
    if "realizes" in snap.predicates {
      var version := snap.predicates["realizes"];
      var matches := Realizing(st, scope, version, candidate, effective);
      assert Realizing(later, scope, version, candidate, effective) == matches;
      assert WithinScopes(later, matches, snap.contexts[scope.context].scopes) == WithinScopes(st, matches, snap.contexts[scope.context].scopes);
    }
  }

  lemma ObservationFrame(st: StoreState, later: StoreState, scope: DecisionScope, o: Observation, effective: set<Id>)
    requires Extends(st, later) && effective <= st.records.Keys && EnvironmentOk(st, scope)
    ensures ObservationOk(later, scope, true, o, effective) <==> ObservationOk(st, scope, true, o, effective)
  {
    DiscoverFrame(st, later, scope, o.candidate, effective);
  }

  lemma CompletenessFrame(st: StoreState, later: StoreState, scope: DecisionScope, g: DecisionGrounding, effective: set<Id>)
    requires Extends(st, later) && effective <= st.records.Keys && EnvironmentOk(st, scope) && g.current
    ensures EnvironmentOk(later, scope)
    ensures Completeness(later, scope, g, effective) == Completeness(st, scope, g, effective)
  {
    forall o | o in g.observations
      ensures ObservationOk(later, scope, true, o, effective) <==> ObservationOk(st, scope, true, o, effective)
    {
      ObservationFrame(st, later, scope, o, effective);
    }
  }

  lemma CandidateFrame(st: StoreState, later: StoreState, view: Support, c: Candidate, o: Observation)
    requires Extends(st, later) && view.ids <= st.records.Keys
    ensures CandidateOk(later, view, c, o) <==> CandidateOk(st, view, c, o)
  {
    assert Supports(later, c.candidate, view.version, view.ids, view.visible) == Supports(st, c.candidate, view.version, view.ids, view.visible);
  }

  /** The problem belongs to a stored scope and a stored run of the current schema. */
  ghost predicate Filed(st: StoreState, p: Problem)
  {
    p.scope in st.scopes && p.scope in st.groundings && st.groundings[p.scope].current && EnvironmentOk(st, st.scopes[p.scope])
  }

  lemma ProblemFrame(st: StoreState, later: StoreState, p: Problem, effective: set<Id>)
    requires Extends(st, later) && effective <= st.records.Keys && Filed(st, p)
    ensures ProblemOk(later, p, effective) <==> ProblemOk(st, p, effective)
  {
    var scope, g := st.scopes[p.scope], st.groundings[p.scope];
    CompletenessFrame(st, later, scope, g, effective);
    if Complete(st, scope, g, effective) {
      var view := ViewOf(st, scope, g.current, effective);
      assert ViewOf(later, scope, g.current, effective) == view;
      forall c, o ensures CandidateOk(later, view, c, o) <==> CandidateOk(st, view, c, o) {
        CandidateFrame(st, later, view, c, o);
      }
    }
  }

  lemma {:induction false} DependencyPath(st: StoreState, later: StoreState, x: Id, steps: seq<Id>, y: Id)
    requires Extends(st, later) && x in st.records
    requires forall d, n :: d in st.derivations && n in st.derivations[d].dependencies ==> n in st.records
    ensures Path(DependencyGraph(st.derivations), x, steps, y) <==> Path(DependencyGraph(later.derivations), x, steps, y)
    decreases |steps|
  {
    if steps != [] && Edge(DependencyGraph(later.derivations), x, steps[0]) {
      assert x in st.derivations;
      assert steps[0] in st.derivations[x].dependencies;
      DependencyPath(st, later, steps[0], steps[1..], y);
    }
  }

  lemma DependencyReach(st: StoreState, later: StoreState, x: Id, y: Id)
    requires Extends(st, later) && x in st.records
    requires forall d, n :: d in st.derivations && n in st.derivations[d].dependencies ==> n in st.records
    ensures Reach(DependencyGraph(st.derivations), x, y) <==> Reach(DependencyGraph(later.derivations), x, y)
  {
    if steps :| Path(DependencyGraph(st.derivations), x, steps, y) {
      DependencyPath(st, later, x, steps, y);
    }
    if steps :| Path(DependencyGraph(later.derivations), x, steps, y) {
      DependencyPath(st, later, x, steps, y);
    }
  }

  lemma RestsOnFrame(st: StoreState, later: StoreState, p: Problem, x: Id)
    requires KnowledgeSound(st) && Extends(st, later) && Filed(st, p) && ProblemOk(st, p, ScopeView(st, p.scope))
    ensures RestsOn(later, p, x) <==> RestsOn(st, p, x)
  {
    SoundHolds(st);
    EffectiveFrame(st, later, p.snapshot);
    assert Direct(later, p) == Direct(st, p);
    forall s | s in Direct(st, p)
      ensures Reach(DependencyGraph(st.derivations), s, x) <==> Reach(DependencyGraph(later.derivations), s, x)
    {
      ReachSelf(DependencyGraph(st.derivations), s);
      assert RestsOn(st, p, s);
      ClosureIsEffective(st, p, s);
      DependencyReach(st, later, s, x);
    }
  }

  lemma FiledDecision(st: StoreState, decision: Id)
    requires DecisionsSound(st) && decision in st.decisions
    ensures st.decisions[decision].source in st.problems
    ensures var p := st.problems[st.decisions[decision].source];
            && Filed(st, p) && IsCurrent(st, p)
            && DecisionOk(p.candidates, true, st.decisions[decision])
  {
    assert DecisionSound(st, decision);
    var source := st.decisions[decision].source;
    assert ProblemSound(st, source);
    assert GroundingSound(st, st.problems[source].scope);
    assert ScopeSound(st, st.problems[source].scope);
  }

  lemma ScopeViewFrame(st: StoreState, later: StoreState, id: Id)
    requires KnowledgeSound(st) && Extends(st, later) && id in st.scopes && st.scopes[id].snapshot in st.snapshots
    ensures ScopeView(later, id) == ScopeView(st, id) && ScopeView(st, id) <= st.records.Keys
  {
    SoundHolds(st);
    EffectiveFrame(st, later, st.scopes[id].snapshot);
  }

  lemma StandsFrame(st: StoreState, later: StoreState, decision: Id, reference: Id)
    requires KnowledgeSound(st) && DecisionsSound(st) && Extends(st, later)
    requires decision in st.decisions && reference in st.snapshots
    ensures Stands(later, st.decisions[decision], reference) <==> Stands(st, st.decisions[decision], reference)
  {
    FiledDecision(st, decision);
    var p := st.problems[st.decisions[decision].source];
    SoundHolds(st);
    ScopeViewFrame(st, later, p.scope);
    ProblemFrame(st, later, p, ScopeView(st, p.scope));
    DescendsFrame(st.snapshots, later.snapshots, reference, p.snapshot);
  }

  lemma ReplacedFrame(st: StoreState, later: StoreState, p: Problem, reference: Id)
    requires KnowledgeSound(st) && Extends(st, later) && Filed(st, p) && ProblemOk(st, p, ScopeView(st, p.scope))
    requires reference in st.snapshots
    ensures Replaced(later, p, reference) <==> Replaced(st, p, reference)
  {
    SoundHolds(st);
    VisibleFrame(st, later, reference);
    forall x ensures RestsOn(later, p, x) <==> RestsOn(st, p, x) {
      RestsOnFrame(st, later, p, x);
    }
  }

  /** Steps that only add change the standing of no decision at any snapshot that exists already. */
  lemma StatusFrame(st: StoreState, later: StoreState, decision: Id, reference: Id)
    requires KnowledgeSound(st) && DecisionsSound(st) && Extends(st, later)
    requires decision in st.decisions && reference in st.snapshots
    ensures StatusOf(later, decision, reference) == StatusOf(st, decision, reference)
  {
    StandsFrame(st, later, decision, reference);
    var d := st.decisions[decision];
    assert later.decisions[decision] == d && reference in later.snapshots;
    FiledDecision(st, decision);
    assert later.problems[d.source] == st.problems[d.source];
    if Stands(st, d, reference) {
      ReplacedFrame(st, later, st.problems[d.source], reference);
    }
  }
}

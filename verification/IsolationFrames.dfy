/** Isolated rows hide nothing that a sound state has published: without the list of them every view, every
    standing test and every invariant is the same. */
module IsolationFrames {
  import Explanations
  import opened Graph
  import opened Lineage
  import opened LineageTheorems
  import opened Model
  import opened Ordering
  import opened Problems
  import opened RestoreClosure
  import opened Scopes
  import opened Selections
  import opened Statuses
  import opened StoreInvariants
  import opened StoreSteps
  import opened Supersessions
  import opened Traversal

  function Cleared(st: StoreState): StoreState
  {
    st.(isolated := {})
  }

  /** No published record shares its identity with an isolated row. */
  ghost predicate Unhidden(st: StoreState)
  {
    forall x :: x in st.records ==> KnowledgeFree(st, x)
  }

  lemma SoundIsUnhidden(st: StoreState)
    requires KnowledgeSound(st)
    ensures Unhidden(st)
  {
    assert forall x :: x in st.records ==> RecordSound(st, x);
  }

  // ---------------------------------------------------------------- invariants

  lemma ClearedKnowledge(st: StoreState)
    requires KnowledgeSound(st)
    ensures KnowledgeSound(Cleared(st))
  {
    var clear := Cleared(st);
    assert Rows(clear) == Rows(st);
    forall x | x in clear.records ensures RecordSound(clear, x) {
      assert RecordSound(st, x);
    }
    forall s | s in clear.snapshots ensures SnapshotSound(clear, s) {
      assert SnapshotSound(st, s);
    }
    forall d | d in clear.derivations ensures ProofSound(clear, d) {
      assert ProofSound(st, d);
    }
    forall r | r in clear.supersessions ensures ReplacementSound(clear, r) {
      assert ReplacementSound(st, r);
    }
  }

  lemma ClearedDefinitions(st: StoreState)
    requires DefinitionsSound(st)
    ensures DefinitionsSound(Cleared(st))
  {
    var clear := Cleared(st);
    forall r | r in clear.rules ensures RuleSound(clear, r) {
      assert RuleSound(st, r);
    }
    forall c | c in clear.contexts ensures ContextSound(clear, c) {
      assert ContextSound(st, c);
    }
  }

  lemma ClearedDecisions(st: StoreState)
    requires DecisionsSound(st)
    ensures DecisionsSound(Cleared(st))
  {
    var clear := Cleared(st);
    forall s | s in clear.scopes ensures ScopeSound(clear, s) {
      assert ScopeSound(st, s);
    }
    forall s | s in clear.groundings ensures GroundingSound(clear, s) {
      assert GroundingSound(st, s);
    }
    forall p | p in clear.problems ensures ProblemSound(clear, p) {
      assert ProblemSound(st, p);
    }
    forall d | d in clear.decisions ensures DecisionSound(clear, d) {
      assert DecisionSound(st, d);
    }
  }

  lemma ClearedSound(st: StoreState)
    requires Sound(st)
    ensures Sound(Cleared(st))
  {
    ClearedKnowledge(st);
    ClearedDefinitions(st);
    ClearedDecisions(st);
  }

  // ---------------------------------------------------------------- views and validators

  lemma ClearedEffective(st: StoreState, s: Id)
    requires s in st.snapshots
    ensures Effective(Cleared(st), s) == Effective(st, s)
  {
    assert Visible(Cleared(st), s) == Visible(st, s);
    assert Base(Cleared(st), s) == Base(st, s);
  }

  lemma ClearedView(st: StoreState, id: Id)
    ensures ScopeView(Cleared(st), id) == ScopeView(st, id)
  {
    if id in st.scopes && st.scopes[id].snapshot in st.snapshots {
      ClearedEffective(st, st.scopes[id].snapshot);
    }
  }

  lemma ClearedDiscover(st: StoreState, scope: DecisionScope, candidate: Id, effective: set<Id>)
    requires Unhidden(st)
    requires scope.snapshot in st.snapshots && scope.context in st.snapshots[scope.snapshot].contexts
    ensures Discover(Cleared(st), scope, candidate, effective) == Discover(st, scope, candidate, effective)
  {
    var clear, snap := Cleared(st), st.snapshots[scope.snapshot];
    if "realizes" in snap.predicates {
      var version, visible := snap.predicates["realizes"], snap.contexts[scope.context].scopes;
      var matches := Realizing(st, scope, version, candidate, effective);
      assert Realizing(clear, scope, version, candidate, effective) == matches;
      assert WithinScopes(clear, matches, visible) == WithinScopes(st, matches, visible);
    }
  }

  lemma ClearedEnvironment(st: StoreState, scope: DecisionScope)
    ensures EnvironmentOk(Cleared(st), scope) <==> EnvironmentOk(st, scope)
  {
  }

  lemma ClearedEvidence(st: StoreState, scope: DecisionScope, o: Observation, effective: set<Id>)
    requires Unhidden(st)
    ensures EvidenceOk(Cleared(st), scope, o, effective) <==> EvidenceOk(st, scope, o, effective)
  {
    if scope.snapshot in st.snapshots && scope.context in st.snapshots[scope.snapshot].contexts {
      ClearedDiscover(st, scope, o.candidate, effective);
    }
  }

  lemma ClearedObservation(st: StoreState, scope: DecisionScope, current: bool, o: Observation, effective: set<Id>)
    requires Unhidden(st)
    ensures ObservationOk(Cleared(st), scope, current, o, effective) <==> ObservationOk(st, scope, current, o, effective)
  {
    ClearedEvidence(st, scope, o, effective);
    assert AdmissibleRecords(Cleared(st), scope, current, effective) == AdmissibleRecords(st, scope, current, effective);
  }

  lemma ClearedCompleteness(st: StoreState, scope: DecisionScope, g: DecisionGrounding, effective: set<Id>)
    requires Unhidden(st)
    ensures Completeness(Cleared(st), scope, g, effective) == Completeness(st, scope, g, effective)
  {
    ClearedEnvironment(st, scope);
    forall o ensures ObservationOk(Cleared(st), scope, g.current, o, effective) <==> ObservationOk(st, scope, g.current, o, effective) {
      ClearedObservation(st, scope, g.current, o, effective);
    }
  }

  lemma ClearedCandidate(st: StoreState, view: Support, c: Candidate, o: Observation)
    requires Unhidden(st)
    ensures Problems.CandidateOk(Cleared(st), view, c, o) <==> Problems.CandidateOk(st, view, c, o)
  {
    assert Supports(Cleared(st), c.candidate, view.version, view.ids, view.visible)
        == Supports(st, c.candidate, view.version, view.ids, view.visible);
  }

  lemma ClearedProblem(st: StoreState, p: Problem, effective: set<Id>)
    requires Unhidden(st)
    ensures ProblemOk(Cleared(st), p, effective) <==> ProblemOk(st, p, effective)
  {
    if p.scope in st.scopes && p.scope in st.groundings {
      var scope, g := st.scopes[p.scope], st.groundings[p.scope];
      ClearedEnvironment(st, scope);
      ClearedCompleteness(st, scope, g, effective);
      if Complete(st, scope, g, effective) {
        var view := ViewOf(st, scope, g.current, effective);
        assert ViewOf(Cleared(st), scope, g.current, effective) == view;
        forall c, o ensures Problems.CandidateOk(Cleared(st), view, c, o) <==> Problems.CandidateOk(st, view, c, o) {
          ClearedCandidate(st, view, c, o);
        }
      }
    }
  }

  lemma ClearedPresent(st: StoreState, c: Candidate)
    ensures Explanations.DependenciesPresent(Cleared(st), c) <==> Explanations.DependenciesPresent(st, c)
  {
    assert DependencyGraph(Cleared(st).derivations) == DependencyGraph(st.derivations);
    assert forall x :: Explanations.Present(Cleared(st), x) <==> Explanations.Present(st, x);
  }

  lemma ClearedExplainable(st: StoreState, d: Id)
    requires Unhidden(st) && d in st.decisions && st.decisions[d].source in st.problems
    ensures Explanations.Explainable(Cleared(st), d) <==> Explanations.Explainable(st, d)
  {
    var p := st.problems[st.decisions[d].source];
    ClearedView(st, p.scope);
    ClearedProblem(st, p, ScopeView(st, p.scope));
    assert IsCurrent(Cleared(st), p) <==> IsCurrent(st, p);
    forall i | 0 <= i < |p.candidates|
      ensures Explanations.DependenciesPresent(Cleared(st), p.candidates[i]) <==> Explanations.DependenciesPresent(st, p.candidates[i])
    {
      ClearedPresent(st, p.candidates[i]);
    }
  }
}

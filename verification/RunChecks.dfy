/** What the checks of stored runs, problems and decisions accept, told from what is stored. */
module RunChecks {
  import opened Model
  import opened Ordering
  import opened Problems
  import opened RestoreClosure
  import opened Rules
  import opened Scopes
  import opened ScopeTheorems
  import opened Selections
  import opened Statuses
  import opened StepContents

  // ---------------------------------------------------------------- one observation

  /** A TRUE result concludes the head of its rule, as bound and from its own dependencies; any other nothing. */
  ghost predicate ConclusionSound(body: RuleBody, r: GroundingResult)
  {
    && (r.conclusion.Some? <==> r.truth == True)
    && (r.conclusion.Some? ==>
          var c := r.conclusion.value;
          && c.predicateId == body.head.predicateId && c.version == body.head.version && c.polarity == body.head.polarity
          && c.dependencies == r.dependencies
          && |c.participants| == |body.head.participants|
          && forall i :: 0 <= i < |c.participants| ==> Binds(r.bindings, body.head.participants[i], c.participants[i]))
  }

  /** What a result may depend on: the effective records, or under the legacy schema any record of the snapshot. */
  ghost predicate MayDependOn(st: StoreState, scope: DecisionScope, current: bool, effective: set<Id>, x: Id)
  {
    if current then x in effective else scope.snapshot in st.snapshots && x in st.snapshots[scope.snapshot].records
  }

  /** The result was made at the scope's snapshot and context by one of its rules, for the candidate and the request, and
      depends on stored records that it may depend on. */
  ghost predicate ResultSound(st: StoreState, scope: DecisionScope, candidate: Id, r: GroundingResult, current: bool, effective: set<Id>)
  {
    && scope.snapshot in st.snapshots && r.snapshot == scope.snapshot && r.context == scope.context
    && var snap := st.snapshots[scope.snapshot];
    && r.rule in scope.rules && r.rule in snap.rules && snap.rules[r.rule].version == r.ruleVersion
    && var body := snap.rules[r.rule].body;
    && ListedOnce(body.participants) && BindsAll(r.bindings, body.participants, snap.descriptions)
    && ("candidate", candidate) in r.bindings && ("request", scope.request) in r.bindings
    && ConclusionSound(body, r)
    && ListedOnce(r.dependencies) && forall d :: d in r.dependencies ==> MayDependOn(st, scope, current, effective, d) && d in st.records
  }

  lemma DistinctIsListedOnce(names: seq<Id>)
    ensures DistinctNames(names) <==> ListedOnce(names)
  {
  }

  lemma DistinctBinding(bindings: seq<(string, Id)>, name: string, id: Id)
    requires DistinctNames(Names(bindings))
    ensures BindingOf(bindings, name) == Some(id) <==> (name, id) in bindings
  {
    BindingExactly(bindings, name, id);
    assert forall i :: 0 <= i < |bindings| ==> Names(bindings)[i] == bindings[i].0;
    if (name, id) in bindings {
      var k :| 0 <= k < |bindings| && bindings[k] == (name, id);
      assert forall j :: k < j < |bindings| ==> bindings[j].0 != name;
    }
  }

  lemma ConclusionExactly(body: RuleBody, r: GroundingResult)
    ensures ConclusionMatches(body, r) <==> ConclusionSound(body, r)
  {
    if r.conclusion.Some? {
      BoundExactly(r.bindings, body.head.participants, r.conclusion.value.participants);
    }
  }

  lemma AdmissibleExactly(st: StoreState, scope: DecisionScope, current: bool, effective: set<Id>)
    ensures forall x :: x in AdmissibleRecords(st, scope, current, effective) <==> MayDependOn(st, scope, current, effective, x)
  {
  }

  /** The validator of stored results accepts exactly the sound ones. */
  lemma ResultExactly(st: StoreState, scope: DecisionScope, o: Observation, current: bool, effective: set<Id>)
    ensures ResultOk(st, scope, o, AdmissibleRecords(st, scope, current, effective))
       <==> (o.result.Some? ==> ResultSound(st, scope, o.candidate, o.result.value, current, effective))
  {
    AdmissibleExactly(st, scope, current, effective);
    if o.result.Some? && scope.snapshot in st.snapshots && o.result.value.rule in st.snapshots[scope.snapshot].rules {
      var r, snap := o.result.value, st.snapshots[scope.snapshot];
      var body := snap.rules[r.rule].body;
      NamesExactly(r.bindings, body.participants, snap.descriptions);
      DistinctIsListedOnce(body.participants);
      DistinctIsListedOnce(r.dependencies);
      ConclusionExactly(body, r);
      if DistinctNames(Names(r.bindings)) {
        DistinctBinding(r.bindings, "candidate", o.candidate);
        DistinctBinding(r.bindings, "request", scope.request);
      }
    }
  }

  /** The evidence of a run of the current schema is what discovery finds now. */
  ghost predicate EvidenceSound(st: StoreState, scope: DecisionScope, candidate: Id, e: DiscoveryEvidence, effective: set<Id>)
  {
    && scope.snapshot in st.snapshots && scope.context in st.snapshots[scope.snapshot].contexts
    && EvidenceTold(st, scope, candidate, effective, e)
  }

  /** Only one evidence can be told of a candidate. */
  lemma EvidenceUnique(st: StoreState, scope: DecisionScope, candidate: Id, effective: set<Id>, e: DiscoveryEvidence, f: DiscoveryEvidence)
    requires EvidenceSound(st, scope, candidate, e, effective) && EvidenceSound(st, scope, candidate, f, effective)
    ensures e == f
  {
    AscendingUnique(e.found, f.found);
    AscendingUnique(e.included, f.included);
    AscendingUnique(e.excluded, f.excluded);
  }

  lemma EvidenceExactly(st: StoreState, scope: DecisionScope, o: Observation, effective: set<Id>)
    ensures EvidenceOk(st, scope, o, effective) <==> (o.evidence.Some? ==> EvidenceSound(st, scope, o.candidate, o.evidence.value, effective))
  {
    if o.evidence.Some? && scope.snapshot in st.snapshots && scope.context in st.snapshots[scope.snapshot].contexts {
      DiscoverExactly(st, scope, o.candidate, effective);
      var e := Discover(st, scope, o.candidate, effective);
      if e.Some? && EvidenceSound(st, scope, o.candidate, o.evidence.value, effective) {
        EvidenceUnique(st, scope, o.candidate, effective, e.value, o.evidence.value);
      }
    }
  }

  // ---------------------------------------------------------------- the status of a run

  ghost predicate ObservationSound(st: StoreState, scope: DecisionScope, current: bool, o: Observation, effective: set<Id>)
  {
    && (o.result.Some? ==> ResultSound(st, scope, o.candidate, o.result.value, current, effective))
    && (current && o.evidence.Some? ==> EvidenceSound(st, scope, o.candidate, o.evidence.value, effective))
  }

  /** The environment is agreed on, the run is not older than its scope, and every observation is sound, of a candidate of
      the manifest and of no other's. */
  ghost predicate RunSound(st: StoreState, scope: DecisionScope, g: DecisionGrounding, effective: set<Id>)
  {
    && Agreed(st, scope) && (scope.current ==> g.current && scope.intention != scope.request)
    && (forall i, j :: 0 <= i < j < |g.observations| ==> g.observations[i].candidate != g.observations[j].candidate)
    && forall o :: o in g.observations ==> o.candidate in scope.candidates && ObservationSound(st, scope, g.current, o, effective)
  }

  /** Nothing was cut short: every candidate of the manifest was observed and traversed. */
  ghost predicate WentThrough(scope: DecisionScope, g: DecisionGrounding)
  {
    && !g.interrupted && !g.pruned
    && (forall c :: c in scope.candidates ==> exists o :: o in g.observations && o.candidate == c)
    && forall o :: o in g.observations ==> o.traversed
  }

  lemma ObservationExactly(st: StoreState, scope: DecisionScope, current: bool, o: Observation, effective: set<Id>)
    ensures ObservationOk(st, scope, current, o, effective) <==> ObservationSound(st, scope, current, o, effective)
  {
    ResultExactly(st, scope, o, current, effective);
    EvidenceExactly(st, scope, o, effective);
  }

  lemma ObservedExactly(observations: seq<Observation>, c: Id)
    ensures c in Observed(observations) <==> exists o :: o in observations && o.candidate == c
    ensures DistinctNames(Observed(observations))
       <==> forall i, j :: 0 <= i < j < |observations| ==> observations[i].candidate != observations[j].candidate
  {
    assert forall i :: 0 <= i < |observations| ==> Observed(observations)[i] == observations[i].candidate;
    if o :| o in observations && o.candidate == c {
      var i :| 0 <= i < |observations| && observations[i] == o;
      assert Observed(observations)[i] == c;
    }
  }

  lemma CheckedExactly(st: StoreState, scope: DecisionScope, g: DecisionGrounding, effective: set<Id>)
    ensures Completeness(st, scope, g, effective).Some? <==> RunSound(st, scope, g, effective)
  {
    ObservedExactly(g.observations, "");
    forall o ensures ObservationOk(st, scope, g.current, o, effective) <==> ObservationSound(st, scope, g.current, o, effective) {
      ObservationExactly(st, scope, g.current, o, effective);
    }
  }

  /** The recomputed status of a run: none unless it is sound; invalid when a candidate failed, complete when all of the
      manifest was gone through, incomplete otherwise. */
  lemma CompletenessExactly(st: StoreState, scope: DecisionScope, g: DecisionGrounding, effective: set<Id>)
    ensures Completeness(st, scope, g, effective)
         == if !RunSound(st, scope, g, effective) then None
            else if exists o :: o in g.observations && o.failure.Some? then Some(InvalidGrounding)
            else if WentThrough(scope, g) then Some(CompleteForDeclaredScope)
            else Some(Incomplete)
  {
    CheckedExactly(st, scope, g, effective);
    forall c ensures c in Observed(g.observations) <==> exists o :: o in g.observations && o.candidate == c {
      ObservedExactly(g.observations, c);
    }
  }

  // ---------------------------------------------------------------- problems

  /** `x` is an exact integer cost of the candidate, of this version, in a scope that is seen and among these records. */
  ghost predicate Prices(st: StoreState, view: Support, candidate: Id, x: Id)
  {
    && x in view.ids && x in st.records && (PropertyRow, x) !in st.isolated
    && st.records[x].Property? && st.records[x].description == candidate && st.records[x].property == "cost"
    && st.records[x].version == view.version && st.records[x].place in view.visible
    && st.records[x].epistemic == Exact && st.records[x].value.Integer?
  }

  /** The one record that prices the candidate, and its number. */
  ghost predicate PricedAt(st: StoreState, view: Support, candidate: Id, v: ObjectiveValue)
  {
    && Prices(st, view, candidate, v.record) && (forall other :: Prices(st, view, candidate, other) ==> other == v.record)
    && st.records[v.record].value == Integer(v.value)
    && v.property == "cost" && v.version == view.version && v.epistemic == Exact
  }

  lemma PricesExactly(st: StoreState, view: Support, candidate: Id)
    ensures forall x :: x in Supports(st, candidate, view.version, view.ids, view.visible) <==> Prices(st, view, candidate, x)
  {
  }

  /** A candidate has an objective exactly when one record prices it, and then that record's. */
  lemma ObjectiveExactly(st: StoreState, view: Support, candidate: Id, v: ObjectiveValue)
    ensures ObjectiveFor(st, candidate, view.version, view.ids, view.visible) == Some(v) <==> PricedAt(st, view, candidate, v)
  {
    var supports := Supports(st, candidate, view.version, view.ids, view.visible);
    PricesExactly(st, view, candidate);
    if |supports| == 1 {
      var x := Only(supports);
      assert supports == {x};
    }
    if PricedAt(st, view, candidate, v) {
      assert supports == {v.record};
    }
  }

  /** The candidate of an observation: its truth, grounding and exclusion, and a price when it is TRUE and in scope. */
  ghost predicate CandidateTold(st: StoreState, view: Support, o: Observation, c: Candidate)
  {
    && o.traversed && c.candidate == o.candidate && o.result == Some(c.result) && o.truth == Some(c.truth) && c.exclusion == o.exclusion
    && if c.truth == True && (view.current ==> c.exclusion == None)
       then c.objective.Some? && PricedAt(st, view, c.candidate, c.objective.value)
       else c.objective == None
  }

  lemma CandidateExactly(st: StoreState, view: Support, o: Observation, c: Candidate)
    ensures BuildCandidate(st, view, o.candidate, Some(o)) == Some(c) <==> CandidateTold(st, view, o, c)
  {
    if c.objective.Some? {
      ObjectiveExactly(st, view, o.candidate, c.objective.value);
    }
    var found := ObjectiveFor(st, o.candidate, view.version, view.ids, view.visible);
    if found.Some? {
      ObjectiveExactly(st, view, o.candidate, found.value);
    }
  }

  /** The scope and its run are stored, agreed on, sound and complete, under one rule and with costs in the snapshot. */
  ghost predicate Buildable(st: StoreState, id: Id, effective: set<Id>)
  {
    && id in st.scopes && id in st.groundings
    && var scope, g := st.scopes[id], st.groundings[id];
    && g.scope == scope.id && g.status == CompleteForDeclaredScope
    && RunSound(st, scope, g, effective) && WentThrough(scope, g) && (forall o :: o in g.observations ==> o.failure == None)
    && |scope.rules| == 1 && "cost" in st.snapshots[scope.snapshot].properties
  }

  /** Where the costs of a problem are looked up: at the snapshot's version, among the records results may depend on, in
      the scopes of the context. */
  ghost predicate LooksUp(st: StoreState, scope: DecisionScope, current: bool, effective: set<Id>, view: Support)
    requires scope.snapshot in st.snapshots && scope.context in st.snapshots[scope.snapshot].contexts
    requires "cost" in st.snapshots[scope.snapshot].properties
  {
    && view.version == st.snapshots[scope.snapshot].properties["cost"]
    && (forall x :: x in view.ids <==> MayDependOn(st, scope, current, effective, x))
    && view.visible == st.snapshots[scope.snapshot].contexts[scope.context].scopes
    && view.current == current
  }

  /** The problem repeats its scope and gives, in manifest order, each candidate as its observation has it. */
  ghost predicate ProblemTold(st: StoreState, scope: DecisionScope, g: DecisionGrounding, effective: set<Id>, p: Problem)
    requires scope.snapshot in st.snapshots && scope.context in st.snapshots[scope.snapshot].contexts
    requires "cost" in st.snapshots[scope.snapshot].properties && scope.rules != []
  {
    && p.scope == scope.id && p.snapshot == scope.snapshot && p.context == scope.context && p.request == scope.request
    && p.rule == scope.rules[0] && p.objectiveVersion == st.snapshots[scope.snapshot].properties["cost"]
    && |p.candidates| == |scope.candidates|
    && exists view :: LooksUp(st, scope, g.current, effective, view)
         && forall i :: 0 <= i < |p.candidates| ==> p.candidates[i].candidate == scope.candidates[i] && FromRun(st, view, g, p.candidates[i])
  }

  ghost predicate FromRun(st: StoreState, view: Support, g: DecisionGrounding, c: Candidate)
  {
    exists o :: o in g.observations && CandidateTold(st, view, o, c)
  }

  lemma CompleteExactly(st: StoreState, id: Id, effective: set<Id>)
    requires id in st.scopes && id in st.groundings
    ensures st.groundings[id].scope == st.scopes[id].id && Complete(st, st.scopes[id], st.groundings[id], effective)
       <==> Buildable(st, id, effective)
  {
    CompletenessExactly(st, st.scopes[id], st.groundings[id], effective);
  }

  lemma FoundInRun(g: DecisionGrounding, o: Observation)
    requires o in g.observations
    requires forall i, j :: 0 <= i < j < |g.observations| ==> g.observations[i].candidate != g.observations[j].candidate
    ensures ObservationFor(g.observations, o.candidate) == Some(o)
  {
    ObservedExactly(g.observations, o.candidate);
    var i :| 0 <= i < |g.observations| && g.observations[i] == o;
    FoundAt(g.observations, i);
  }

  lemma FromRunExactly(st: StoreState, view: Support, g: DecisionGrounding, candidate: Id, c: Candidate)
    requires forall i, j :: 0 <= i < j < |g.observations| ==> g.observations[i].candidate != g.observations[j].candidate
    requires exists o :: o in g.observations && o.candidate == candidate
    ensures BuildCandidate(st, view, candidate, ObservationFor(g.observations, candidate)) == Some(c)
       <==> c.candidate == candidate && FromRun(st, view, g, c)
  {
    var o :| o in g.observations && o.candidate == candidate;
    FoundInRun(g, o);
    CandidateExactly(st, view, o, c);
    if c.candidate == candidate && FromRun(st, view, g, c) {
      var other :| other in g.observations && CandidateTold(st, view, other, c);
      FoundInRun(g, other);
    }
  }

  lemma ViewExactly(st: StoreState, scope: DecisionScope, current: bool, effective: set<Id>, view: Support)
    requires EnvironmentOk(st, scope) && "cost" in st.snapshots[scope.snapshot].properties
    ensures LooksUp(st, scope, current, effective, view) <==> view == ViewOf(st, scope, current, effective)
  {
    AdmissibleExactly(st, scope, current, effective);
    if LooksUp(st, scope, current, effective, view) {
      assert view.ids == AdmissibleRecords(st, scope, current, effective);
    }
  }

  /** The candidates of the manifest one by one, each as its observation has it. */
  ghost predicate AllFromRun(st: StoreState, view: Support, g: DecisionGrounding, ids: seq<Id>, candidates: seq<Candidate>)
  {
    |candidates| == |ids| && forall i :: 0 <= i < |ids| ==> candidates[i].candidate == ids[i] && FromRun(st, view, g, candidates[i])
  }

  lemma AllFromRunExactly(st: StoreState, view: Support, g: DecisionGrounding, ids: seq<Id>, candidates: seq<Candidate>)
    requires forall i, j :: 0 <= i < j < |g.observations| ==> g.observations[i].candidate != g.observations[j].candidate
    requires forall c :: c in ids ==> exists o :: o in g.observations && o.candidate == c
    ensures BuildCandidates(st, view, ids, g.observations) == Some(candidates) <==> AllFromRun(st, view, g, ids, candidates)
  {
    BuiltEach(st, view, ids, g.observations, candidates);
    if |candidates| == |ids| {
      forall i | 0 <= i < |ids|
        ensures BuildCandidate(st, view, ids[i], ObservationFor(g.observations, ids[i])) == Some(candidates[i])
           <==> candidates[i].candidate == ids[i] && FromRun(st, view, g, candidates[i])
      {
        assert ids[i] in ids;
        FromRunExactly(st, view, g, ids[i], candidates[i]);
      }
    }
  }

  lemma BuiltIsTold(st: StoreState, id: Id, effective: set<Id>, p: Problem)
    requires BuildProblem(st, id, effective) == Some(p)
    ensures Buildable(st, id, effective) && ProblemTold(st, st.scopes[id], st.groundings[id], effective, p)
  {
    CompleteExactly(st, id, effective);
    var scope, g := st.scopes[id], st.groundings[id];
    var view := ViewOf(st, scope, g.current, effective);
    ViewExactly(st, scope, g.current, effective, view);
    AllFromRunExactly(st, view, g, scope.candidates, p.candidates);
  }

  lemma ToldIsBuilt(st: StoreState, id: Id, effective: set<Id>, p: Problem)
    requires Buildable(st, id, effective) && ProblemTold(st, st.scopes[id], st.groundings[id], effective, p)
    ensures BuildProblem(st, id, effective) == Some(p)
  {
    CompleteExactly(st, id, effective);
    var scope, g := st.scopes[id], st.groundings[id];
    var view :| LooksUp(st, scope, g.current, effective, view)
                && forall i :: 0 <= i < |p.candidates| ==> p.candidates[i].candidate == scope.candidates[i] && FromRun(st, view, g, p.candidates[i]);
    ViewExactly(st, scope, g.current, effective, view);
    AllFromRunExactly(st, view, g, scope.candidates, p.candidates);
  }

  /** A problem is built exactly from a complete run whose every TRUE candidate in scope has one price, and it is the one told. */
  lemma BuildExactly(st: StoreState, id: Id, effective: set<Id>, p: Problem)
    ensures BuildProblem(st, id, effective) == Some(p) <==> Buildable(st, id, effective) && ProblemTold(st, st.scopes[id], st.groundings[id], effective, p)
  {
    if BuildProblem(st, id, effective) == Some(p) {
      BuiltIsTold(st, id, effective, p);
    }
    if Buildable(st, id, effective) && ProblemTold(st, st.scopes[id], st.groundings[id], effective, p) {
      ToldIsBuilt(st, id, effective, p);
    }
  }

  // ---------------------------------------------------------------- decisions

  /** Exactly which decisions over a problem are accepted: those with the outcome told, every co-optimum listed once. */
  lemma DecisionExactly(p: Problem, current: bool, d: Decision)
    requires Distinct(p.candidates) && Selectable(p, current)
    ensures DecisionOk(p.candidates, current, d) <==> OutcomeTold(p, current, d.status, d.optimum, d.coOptima) && ListedOnce(d.coOptima)
  {
    SelectionMeans("", p, current);
    AcceptedExactlyAsSelected("", p, current, d);
    DistinctIsListedOnce(d.coOptima);
    var s := SelectM1("", p, current).value;
    OneOutcome(p, current, s.status, d.status, s.optimum, d.optimum, s.coOptima, d.coOptima);
  }
}

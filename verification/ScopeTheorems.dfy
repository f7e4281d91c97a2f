/** What the evaluation of a decision scope observes, told from the stored records. */
module ScopeTheorems {
  import opened Grounding
  import opened GroundingTheorems
  import opened Model
  import opened Ordering
  import opened Scopes

  // ---------------------------------------------------------------- discovery

  /** `x` is an effective relation that says, at the snapshot's version, that the candidate realizes the intention. */
  ghost predicate Realizes(st: StoreState, scope: DecisionScope, candidate: Id, effective: set<Id>, x: Id)
    requires scope.snapshot in st.snapshots
  {
    && x in effective && x in st.records && (RelationRow, x) !in st.isolated
    && st.records[x].Relation? && st.records[x].predicateId == "realizes"
    && "realizes" in st.snapshots[scope.snapshot].predicates
    && st.records[x].version == st.snapshots[scope.snapshot].predicates["realizes"]
    && st.records[x].participants == [candidate, scope.intention] && st.records[x].polarity == Positive
  }

  /** The scope is this name or has it among its several. */
  predicate Bears(scope: Scope, name: string)
  {
    match scope
    case One(only) => name == only
    case Many(names) => name in names
  }

  /** The context of the scope sees one of the names of the relation's scope. */
  ghost predicate Seen(st: StoreState, scope: DecisionScope, x: Id)
    requires scope.snapshot in st.snapshots && scope.context in st.snapshots[scope.snapshot].contexts
    requires x in st.records && st.records[x].Relation?
  {
    exists name :: name in st.snapshots[scope.snapshot].contexts[scope.context].scopes && Bears(st.records[x].scope, name)
  }

  ghost predicate Admits(st: StoreState, scope: DecisionScope, candidate: Id, effective: set<Id>, x: Id)
    requires scope.snapshot in st.snapshots && scope.context in st.snapshots[scope.snapshot].contexts
  {
    Realizes(st, scope, candidate, effective, x) && Seen(st, scope, x)
  }

  /** All relations that realize, those the context sees and those it does not, each list in ascending order. */
  ghost predicate EvidenceTold(st: StoreState, scope: DecisionScope, candidate: Id, effective: set<Id>, e: DiscoveryEvidence)
    requires scope.snapshot in st.snapshots && scope.context in st.snapshots[scope.snapshot].contexts
  {
    && "realizes" in st.snapshots[scope.snapshot].predicates && e.version == st.snapshots[scope.snapshot].predicates["realizes"]
    && e.participants == [candidate, scope.intention]
    && Ascending(e.found) && Ascending(e.included) && Ascending(e.excluded)
    && (forall x :: x in e.found <==> Realizes(st, scope, candidate, effective, x))
    && (forall x :: x in e.included <==> Admits(st, scope, candidate, effective, x))
    && forall x :: x in e.excluded <==> Realizes(st, scope, candidate, effective, x) && !Seen(st, scope, x)
  }

  lemma {:induction false} AmongAscends(names: seq<string>, keep: set<string>)
    requires Ascending(names)
    ensures Ascending(Among(names, keep))
  {
    if names != [] {
      HeadIsLeast(names);
      AmongAscends(names[1..], keep);
      var rest := Among(names[1..], keep);
      forall i | 0 <= i < |rest| ensures Below(names[0], rest[i]) {
        assert rest[i] in names[1..];
      }
    }
  }

  lemma MeetsExactly(st: StoreState, scope: DecisionScope, x: Id)
    requires scope.snapshot in st.snapshots && scope.context in st.snapshots[scope.snapshot].contexts
    requires x in st.records && st.records[x].Relation?
    ensures st.records[x].scope.Meets(st.snapshots[scope.snapshot].contexts[scope.context].scopes) <==> Seen(st, scope, x)
  {
  }

  lemma SplitAscends(matches: set<Id>, within: set<Id>)
    ensures var found := SortNames(matches);
            && Ascending(Among(found, within)) && (forall x :: x in Among(found, within) <==> x in matches && x in within)
            && Ascending(Among(found, matches - within)) && (forall x :: x in Among(found, matches - within) <==> x in matches && x !in within)
  {
    AmongAscends(SortNames(matches), within);
    AmongAscends(SortNames(matches), matches - within);
  }

  lemma RealizingExactly(st: StoreState, scope: DecisionScope, candidate: Id, effective: set<Id>, x: Id)
    requires scope.snapshot in st.snapshots && scope.context in st.snapshots[scope.snapshot].contexts
    requires "realizes" in st.snapshots[scope.snapshot].predicates
    ensures var snap := st.snapshots[scope.snapshot];
            var matches := Realizing(st, scope, snap.predicates["realizes"], candidate, effective);
            && (x in matches <==> Realizes(st, scope, candidate, effective, x))
            && (x in matches && x in WithinScopes(st, matches, snap.contexts[scope.context].scopes) <==> Admits(st, scope, candidate, effective, x))
  {
    if Realizes(st, scope, candidate, effective, x) {
      MeetsExactly(st, scope, x);
    }
  }

  lemma DiscoverExactly(st: StoreState, scope: DecisionScope, candidate: Id, effective: set<Id>)
    requires scope.snapshot in st.snapshots && scope.context in st.snapshots[scope.snapshot].contexts
    ensures var e := Discover(st, scope, candidate, effective);
            && (e.Some? <==> "realizes" in st.snapshots[scope.snapshot].predicates)
            && (e.Some? ==> EvidenceTold(st, scope, candidate, effective, e.value))
  {
    var snap := st.snapshots[scope.snapshot];
    if "realizes" in snap.predicates {
      var matches := Realizing(st, scope, snap.predicates["realizes"], candidate, effective);
      var within := WithinScopes(st, matches, snap.contexts[scope.context].scopes);
      forall x
        ensures x in matches <==> Realizes(st, scope, candidate, effective, x)
        ensures x in matches && x in within <==> Admits(st, scope, candidate, effective, x)
      {
        RealizingExactly(st, scope, candidate, effective, x);
      }
      SplitAscends(matches, within);
    }
  }

  // ---------------------------------------------------------------- observations

  /** The prescribed rule can be grounded for the candidate. */
  ghost predicate Groundable(st: StoreState, scope: DecisionScope, candidate: Id, effective: set<Id>)
    requires scope.rules != []
  {
    var bindings := map["candidate" := candidate, "request" := scope.request];
    && Prepared(st, scope.rules[0], bindings, scope.snapshot, scope.context)
    && var site := SiteOf(st, scope.snapshot, scope.context, effective);
    && var body := site.snapshot.rules[scope.rules[0]].body;
    && Evaluable(site, bindings, body.condition) && (Holds(site, bindings, body.condition) ==> HeadStands(site.snapshot, body))
  }

  /**
   * A candidate fails when the snapshot knows no version of the relation or the rule cannot be grounded. Otherwise its
   * grounding is kept with the evidence, and it stays in scope exactly when some relation that realizes is seen.
   */
  ghost predicate ObservationTold(st: StoreState, scope: DecisionScope, candidate: Id, effective: set<Id>, o: Observation)
    requires scope.snapshot in st.snapshots && scope.context in st.snapshots[scope.snapshot].contexts && scope.rules != []
  {
    && o.candidate == candidate && o.traversed
    && (o.failure.None? <==> "realizes" in st.snapshots[scope.snapshot].predicates && Groundable(st, scope, candidate, effective))
    && if o.failure.Some? then o.truth.None? && o.result.None? && o.exclusion.None? && o.evidence.None?
       else
         && o.result.Some? && o.truth == Some(o.result.value.truth)
         && ResultTold(st, scope, candidate, effective, o.result.value)
         && o.evidence.Some? && EvidenceTold(st, scope, candidate, effective, o.evidence.value)
         && o.exclusion == if exists x :: Admits(st, scope, candidate, effective, x) then None else Some("excluded_by_context")
  }

  ghost predicate ResultTold(st: StoreState, scope: DecisionScope, candidate: Id, effective: set<Id>, r: GroundingResult)
    requires scope.rules != []
  {
    var bindings := map["candidate" := candidate, "request" := scope.request];
    && Prepared(st, scope.rules[0], bindings, scope.snapshot, scope.context)
    && Told(st, scope.rules[0], bindings, scope.snapshot, scope.context, effective, r)
  }

  lemma GroundedExactly(st: StoreState, scope: DecisionScope, candidate: Id, effective: set<Id>)
    requires EnvironmentOk(st, scope)
    ensures var r := Ground(st, scope.rules[0], BindingsFor(scope, candidate), scope.snapshot, scope.context, effective);
            (r.Ok? <==> Groundable(st, scope, candidate, effective)) && (r.Ok? ==> ResultTold(st, scope, candidate, effective, r.value))
  {
    var bindings := map["candidate" := candidate, "request" := scope.request];
    assert BindingsFor(scope, candidate) == bindings;
    GroundExactly(st, scope.rules[0], bindings, scope.snapshot, scope.context, effective);
  }

  lemma IncludedSome(st: StoreState, scope: DecisionScope, candidate: Id, effective: set<Id>, e: DiscoveryEvidence)
    requires scope.snapshot in st.snapshots && scope.context in st.snapshots[scope.snapshot].contexts
    requires EvidenceTold(st, scope, candidate, effective, e)
    ensures e.included != [] <==> exists x :: Admits(st, scope, candidate, effective, x)
  {
    if e.included != [] {
      assert e.included[0] in e.included;
    }
  }

  lemma ObserveExactly(st: StoreState, scope: DecisionScope, candidate: Id, effective: set<Id>)
    requires EnvironmentOk(st, scope)
    ensures ObservationTold(st, scope, candidate, effective, Observe(st, scope, candidate, effective))
  {
    DiscoverExactly(st, scope, candidate, effective);
    GroundedExactly(st, scope, candidate, effective);
    var evidence := Discover(st, scope, candidate, effective);
    if evidence.Some? {
      IncludedSome(st, scope, candidate, effective, evidence.value);
    }
  }

  // ---------------------------------------------------------------- runs

  /** A run of the current schema over the candidates of the manifest in order; it is invalid when a candidate failed. */
  ghost predicate RunTold(st: StoreState, scope: DecisionScope, effective: set<Id>, g: DecisionGrounding)
    requires scope.snapshot in st.snapshots && scope.context in st.snapshots[scope.snapshot].contexts && scope.rules != []
  {
    && g.scope == scope.id && g.current && !g.interrupted && !g.pruned
    && |g.observations| == |scope.candidates|
    && (forall i :: 0 <= i < |scope.candidates| ==> ObservationTold(st, scope, scope.candidates[i], effective, g.observations[i]))
    && g.status == if exists i :: 0 <= i < |g.observations| && g.observations[i].failure.Some? then InvalidGrounding else CompleteForDeclaredScope
  }

  lemma EvaluatedExactly(st: StoreState, scope: DecisionScope, effective: set<Id>)
    requires EnvironmentOk(st, scope)
    ensures RunTold(st, scope, effective, Evaluated(st, scope, effective))
  {
    var g := Evaluated(st, scope, effective);
    forall i | 0 <= i < |scope.candidates| ensures ObservationTold(st, scope, scope.candidates[i], effective, g.observations[i]) {
      ObserveExactly(st, scope, scope.candidates[i], effective);
    }
    assert (exists o :: o in g.observations && o.failure.Some?) <==> exists i :: 0 <= i < |g.observations| && g.observations[i].failure.Some?;
  }

  /** For a manifest without repetitions a run is made exactly in an agreed environment with one rule, and it is the run
      just told. */
  lemma RunExactly(st: StoreState, scope: DecisionScope, effective: set<Id>)
    requires ManifestOk(scope)
    ensures var r := EvaluateScope(st, scope, effective);
            && (r.Ok? <==> EnvironmentOk(st, scope) && |scope.rules| == 1)
            && (r.Ok? ==> RunTold(st, scope, effective, r.value))
  {
    if EnvironmentOk(st, scope) && |scope.rules| == 1 {
      EvaluationAgrees(st, scope, effective);
      EvaluatedExactly(st, scope, effective);
    }
  }

  /** The evidence of a run of the current schema that passed its checks is the evidence told here. */
  lemma StoredEvidence(st: StoreState, scope: DecisionScope, o: Observation, effective: set<Id>)
    requires scope.snapshot in st.snapshots && scope.context in st.snapshots[scope.snapshot].contexts
    requires EvidenceOk(st, scope, o, effective) && o.evidence.Some?
    ensures EvidenceTold(st, scope, o.candidate, effective, o.evidence.value)
  {
    DiscoverExactly(st, scope, o.candidate, effective);
  }
}

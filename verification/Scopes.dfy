/** Finite decision scopes, their grounding runs and the recomputation that validates a run
    (src/atlas/scope.py). */
module Scopes {
  import opened Grounding
  import opened Lineage
  import opened Model
  import opened Ordering
  import opened RestoreClosure
  import opened Rules
  import opened RuleTheorems

  // ---------------------------------------------------------------- the declared environment

  predicate ManifestOk(scope: DecisionScope)
  {
    DistinctNames(scope.candidates) && DistinctNames(scope.rules)
  }

  /** `validate_scope_environment`. */
  predicate EnvironmentOk(st: StoreState, scope: DecisionScope)
  {
    && scope.context in st.contexts && scope.snapshot in st.snapshots
    && var snap := st.snapshots[scope.snapshot];
    && scope.context in snap.contexts && snap.contexts[scope.context] == st.contexts[scope.context]
    && scope.intention in snap.descriptions
    && (scope.current ==> scope.intention != scope.request)
    && scope.request in snap.descriptions
    && (forall c :: c in scope.candidates ==> c in snap.descriptions)
    && scope.rules != []
    && forall r :: r in scope.rules ==> r in snap.rules && r in st.rules && snap.rules[r].version == st.rules[r].version
  }

  /** Only a legacy scope may carry a legacy grounding. */
  predicate Compatible(scope: DecisionScope, g: DecisionGrounding)
  {
    scope.current ==> g.current
  }

  // ---------------------------------------------------------------- discovery

  /** The effective relations that state that the candidate realizes the intention. */
  function Realizing(st: StoreState, scope: DecisionScope, version: string, candidate: Id, effective: set<Id>): set<Id>
  {
    set x | x in effective && x in st.records && st.records[x].Relation? && (RelationRow, x) !in st.isolated
            && st.records[x].predicateId == "realizes" && st.records[x].version == version
            && st.records[x].participants == [candidate, scope.intention] && st.records[x].polarity.Positive?
  }

  function WithinScopes(st: StoreState, ids: set<Id>, visible: seq<string>): set<Id>
  {
    set x | x in ids && x in st.records && st.records[x].Relation? && st.records[x].scope.Meets(visible)
  }

  /** `discover_relation`. */
  function Discover(st: StoreState, scope: DecisionScope, candidate: Id, effective: set<Id>): Option<DiscoveryEvidence>
    requires scope.snapshot in st.snapshots && scope.context in st.snapshots[scope.snapshot].contexts
  {
    var snap := st.snapshots[scope.snapshot];
    if "realizes" !in snap.predicates then None
    else
      var version := snap.predicates["realizes"];
      var matches := Realizing(st, scope, version, candidate, effective);
      var within := WithinScopes(st, matches, snap.contexts[scope.context].scopes);
      var found := SortNames(matches);
      Some(DiscoveryEvidence(version, [candidate, scope.intention], found, Among(found, within), Among(found, matches - within)))
  }

  // ---------------------------------------------------------------- validation of a stored run

  /** What the constructor of an observation demands. */
  predicate ObservationShape(o: Observation)
  {
    && !(o.result.Some? && o.failure.Some?)
    && (o.failure.Some? ==> o.truth.None?)
    && (!o.traversed ==> o.result.None? && o.truth.None?)
    && (o.traversed ==> o.result.Some? || o.failure.Some?)
    && (o.result.Some? ==> o.truth == Some(o.result.value.truth))
  }

  /** What decoding a stored run demands: observations of one shape, no candidate twice, and in the current
      schema discovery evidence with every observation that did not fail. */
  predicate RunShape(g: DecisionGrounding)
  {
    && DistinctNames(Observed(g.observations))
    && forall o :: o in g.observations ==> ObservationShape(o) && (g.current && o.failure.None? ==> o.evidence.Some?)
  }

  predicate ConclusionMatches(body: RuleBody, r: GroundingResult)
  {
    if r.truth.True? then
      && r.conclusion.Some?
      && BoundTo(r.bindings, body.head.participants) == Somes(r.conclusion.value.participants)
      && r.conclusion.value.predicateId == body.head.predicateId && r.conclusion.value.version == body.head.version
      && r.conclusion.value.polarity == body.head.polarity
      && r.conclusion.value.dependencies == r.dependencies
    else r.conclusion.None?
  }

  /** `validate_grounding_result`. */
  predicate ResultOk(st: StoreState, scope: DecisionScope, o: Observation, admissible: set<Id>)
  {
    o.result.Some? ==>
      && var r := o.result.value;
      && scope.snapshot in st.snapshots && r.snapshot == scope.snapshot && r.context == scope.context
      && var snap := st.snapshots[scope.snapshot];
      && r.rule in scope.rules && r.rule in snap.rules && snap.rules[r.rule].version == r.ruleVersion
      && var body := snap.rules[r.rule].body;
      && DistinctNames(Names(r.bindings)) && Names(r.bindings) == body.participants
      && (forall b :: b in r.bindings ==> b.1 in snap.descriptions)
      && BindingOf(r.bindings, "candidate") == Some(o.candidate) && BindingOf(r.bindings, "request") == Some(scope.request)
      && ConclusionMatches(body, r)
      && DistinctNames(r.dependencies)
      && forall d :: d in r.dependencies ==> d in admissible && d in st.records
  }

  /** `validate_discovery_evidence`. */
  predicate EvidenceOk(st: StoreState, scope: DecisionScope, o: Observation, effective: set<Id>)
  {
    o.evidence.Some? ==>
      && scope.snapshot in st.snapshots && scope.context in st.snapshots[scope.snapshot].contexts
      && Discover(st, scope, o.candidate, effective) == o.evidence
  }

  function Observed(observations: seq<Observation>): seq<Id>
  {
    seq(|observations|, i requires 0 <= i < |observations| => observations[i].candidate)
  }

  /** The records a stored result may depend on: the effective ones, or all of the snapshot for legacy runs. */
  function AdmissibleRecords(st: StoreState, scope: DecisionScope, current: bool, effective: set<Id>): set<Id>
  {
    if current then effective else if scope.snapshot in st.snapshots then RecordSet(st.snapshots[scope.snapshot]) else {}
  }

  predicate ObservationOk(st: StoreState, scope: DecisionScope, current: bool, o: Observation, effective: set<Id>)
  {
    && ResultOk(st, scope, o, AdmissibleRecords(st, scope, current, effective))
    && (current ==> EvidenceOk(st, scope, o, effective))
  }

  /** `compute_declared_scope_completeness`; no status at all when a test raises. */
  function Completeness(st: StoreState, scope: DecisionScope, g: DecisionGrounding, effective: set<Id>): Option<GroundingStatus>
  {
    if !EnvironmentOk(st, scope) || !Compatible(scope, g) then None
    else if !DistinctNames(Observed(g.observations)) then None
    else if exists o :: o in g.observations && o.candidate !in scope.candidates then None
    else if exists o :: o in g.observations && !ObservationOk(st, scope, g.current, o, effective) then None
    else if exists o :: o in g.observations && o.failure.Some? then Some(InvalidGrounding)
    else if g.interrupted || g.pruned then Some(Incomplete)
    else if exists c :: c in scope.candidates && c !in Observed(g.observations) then Some(Incomplete)
    else if exists o :: o in g.observations && !o.traversed then Some(Incomplete)
    else Some(CompleteForDeclaredScope)
  }

  // ---------------------------------------------------------------- the evaluation of a scope

  function BindingsFor(scope: DecisionScope, candidate: Id): map<string, Id>
  {
    map["candidate" := candidate, "request" := scope.request]
  }

  /** One candidate: discovery and grounding, or the error that stopped them. */
  function Observe(st: StoreState, scope: DecisionScope, candidate: Id, effective: set<Id>): Observation
    requires EnvironmentOk(st, scope)
  {
    var evidence := Discover(st, scope, candidate, effective);
    if evidence.None? then Observation(candidate, true, None, None, None, Some("discovery"), None)
    else
      match Ground(st, scope.rules[0], BindingsFor(scope, candidate), scope.snapshot, scope.context, effective)
      case Err(reason) => Observation(candidate, true, None, None, None, Some(reason), None)
      case Ok(result) =>
        Observation(candidate, true, Some(result.truth), Some(result),
                    if evidence.value.included != [] then None else Some("excluded_by_context"), None, evidence)
  }

  function ObserveAll(st: StoreState, scope: DecisionScope, candidates: seq<Id>, effective: set<Id>): seq<Observation>
    requires EnvironmentOk(st, scope)
  {
    seq(|candidates|, i requires 0 <= i < |candidates| => Observe(st, scope, candidates[i], effective))
  }

  function Evaluated(st: StoreState, scope: DecisionScope, effective: set<Id>): DecisionGrounding
    requires EnvironmentOk(st, scope)
  {
    var observations := ObserveAll(st, scope, scope.candidates, effective);
    DecisionGrounding(scope.id, observations,
                      if exists o :: o in observations && o.failure.Some? then InvalidGrounding else CompleteForDeclaredScope,
                      false, false, true)
  }

  /** `evaluate`, with its final comparison of the status with the recomputed one. */
  function EvaluateScope(st: StoreState, scope: DecisionScope, effective: set<Id>): Result<DecisionGrounding>
  {
    if !EnvironmentOk(st, scope) then Err("scope environment")
    else if |scope.rules| != 1 then Err("exactly one prescribed rule")
    else
      var g := Evaluated(st, scope, effective);
      if Completeness(st, scope, g, effective) != Some(g.status) then Err("inconsistent status") else Ok(g)
  }

  method EffectiveSet(st: StoreState, snapshot: Id) returns (effective: set<Id>)
    requires ParentsPresent(st.snapshots) && snapshot in st.snapshots
    ensures effective == Effective(st, snapshot)
  {
    var ids := EffectiveRecordIds(st, snapshot);
    EffectiveListed(st, snapshot);
    effective := set x | x in ids;
  }

  /** One turn of the loop in `evaluate`. */
  method ObserveCandidate(st: StoreState, scope: DecisionScope, candidate: Id) returns (o: Observation)
    requires ParentsPresent(st.snapshots) && EnvironmentOk(st, scope)
    ensures o == Observe(st, scope, candidate, Effective(st, scope.snapshot))
  {
    var effective := EffectiveSet(st, scope.snapshot);
    var evidence := Discover(st, scope, candidate, effective);
    if evidence.None? {
      return Observation(candidate, true, None, None, None, Some("discovery"), None);
    }
    var result := GroundRule(st, scope.rules[0], BindingsFor(scope, candidate), scope.snapshot, scope.context);
    if result.Err? {
      return Observation(candidate, true, None, None, None, Some(result.reason), None);
    }
    var exclusion := if evidence.value.included != [] then None else Some("excluded_by_context");
    return Observation(candidate, true, Some(result.value.truth), Some(result.value), exclusion, None, evidence);
  }

  /** The loop in `evaluate`. */
  method ObserveEach(st: StoreState, scope: DecisionScope) returns (observations: seq<Observation>, invalid: bool)
    requires ParentsPresent(st.snapshots) && EnvironmentOk(st, scope)
    ensures observations == ObserveAll(st, scope, scope.candidates, Effective(st, scope.snapshot))
    ensures invalid <==> exists o :: o in observations && o.failure.Some?
  {
    observations, invalid := [], false;
    ghost var effective := Effective(st, scope.snapshot);
    for i := 0 to |scope.candidates|
      invariant observations == ObserveAll(st, scope, scope.candidates[..i], effective)
      invariant invalid <==> exists o :: o in observations && o.failure.Some?
    {
      var o := ObserveCandidate(st, scope, scope.candidates[i]);
      ObserveAllStep(st, scope, i, effective);
      observations := observations + [o];
      invalid := invalid || o.failure.Some?;
    }
    assert scope.candidates[..|scope.candidates|] == scope.candidates;
  }

  lemma ObserveAllStep(st: StoreState, scope: DecisionScope, i: nat, effective: set<Id>)
    requires EnvironmentOk(st, scope) && i < |scope.candidates|
    ensures ObserveAll(st, scope, scope.candidates[..i + 1], effective)
         == ObserveAll(st, scope, scope.candidates[..i], effective) + [Observe(st, scope, scope.candidates[i], effective)]
  {
  }

  method Evaluate(st: StoreState, scope: DecisionScope) returns (r: Result<DecisionGrounding>)
    requires ParentsPresent(st.snapshots)
    ensures r == EvaluateScope(st, scope, if scope.snapshot in st.snapshots then Effective(st, scope.snapshot) else {})
  {
    if !EnvironmentOk(st, scope) {
      return Err("scope environment");
    }
    if |scope.rules| != 1 {
      return Err("exactly one prescribed rule");
    }
    var observations, invalid := ObserveEach(st, scope);
    var g := DecisionGrounding(scope.id, observations, if invalid then InvalidGrounding else CompleteForDeclaredScope,
                               false, false, true);
    var effectiveSet := EffectiveSet(st, scope.snapshot);
    if Completeness(st, scope, g, effectiveSet) != Some(g.status) {
      return Err("inconsistent status");
    }
    return Ok(g);
  }

  // ---------------------------------------------------------------- the evaluation agrees with the validation

  lemma {:induction false} OrderedBinds(bindings: map<string, Id>, names: seq<string>, name: string)
    requires forall n :: n in names ==> n in bindings
    ensures BindingOf(Ordered(bindings, names), name) == if name in names then Some(bindings[name]) else None
    decreases |names|
  {
    if names != [] {
      assert Ordered(bindings, names)[1..] == Ordered(bindings, names[1..]);
      OrderedBinds(bindings, names[1..], name);
    }
  }

  lemma OrderedNames(bindings: map<string, Id>, names: seq<string>)
    requires forall n :: n in names ==> n in bindings
    ensures Names(Ordered(bindings, names)) == names
    ensures forall b :: b in Ordered(bindings, names) ==> b.0 in names && b.1 == bindings[b.0]
  {
    assert forall i :: 0 <= i < |names| ==> names[i] in names;
  }

  lemma OrderedParticipants(bindings: map<string, Id>, names: seq<string>, ids: seq<Id>)
    requires forall n :: n in names ==> n in bindings
    requires |ids| == |names| && forall i :: 0 <= i < |names| ==> ids[i] == Ordered(bindings, names)[i].1
    ensures BoundTo(Ordered(bindings, names), names) == Somes(ids)
  {
    forall i | 0 <= i < |names| ensures BindingOf(Ordered(bindings, names), names[i]) == Some(ids[i]) {
      OrderedBinds(bindings, names, names[i]);
      assert names[i] in names;
    }
  }

  /** The parts of a grounding that its stored form is tested for. */
  ghost predicate Wellmade(st: StoreState, rule: Id, bindings: map<string, Id>, snapshot: Id, effective: set<Id>, r: GroundingResult)
  {
    && snapshot in st.snapshots && rule in st.snapshots[snapshot].rules
    && var body := st.snapshots[snapshot].rules[rule].body;
    && BindingsFit(bindings, body.participants, st.snapshots[snapshot])
    && r.rule == rule && r.ruleVersion == st.snapshots[snapshot].rules[rule].version
    && r.bindings == Ordered(bindings, body.participants)
    && ConclusionMatches(body, r)
    && DistinctNames(r.dependencies)
    && forall d :: d in r.dependencies ==> d in effective && d in st.records
  }

  lemma DependenciesEffective(w: World, bindings: map<string, Id>, e: Expr)
    requires Rules.Evaluate(w, bindings, e, Reads([], [], [])).Yields?
    ensures var dependencies := Rules.Evaluate(w, bindings, e, Reads([], [], [])).after.dependencies;
            && DistinctNames(dependencies)
            && forall d :: d in dependencies ==> d in w.visible && d in w.records && w.records[d].Property?
  {
    FootprintExactly(w, bindings, e);
  }

  lemma GroundWellmade(st: StoreState, rule: Id, bindings: map<string, Id>, snapshot: Id, context: Id, effective: set<Id>,
                       r: GroundingResult)
    requires Ground(st, rule, bindings, snapshot, context, effective) == Ok(r)
    ensures Wellmade(st, rule, bindings, snapshot, effective, r) && r.snapshot == snapshot && r.context == context
  {
    var snap := st.snapshots[snapshot];
    var body := snap.rules[rule].body;
    DependenciesEffective(WorldAt(st, snap, snap.contexts[context], effective), bindings, body.condition);
    if r.truth.True? {
      OrderedParticipants(bindings, body.participants, r.conclusion.value.participants);
    }
  }

  lemma BoundPairIsDistinct(scope: DecisionScope, candidate: Id, names: seq<string>, snapshot: Snapshot)
    requires BindingsFit(BindingsFor(scope, candidate), names, snapshot)
    ensures "candidate" in names && "request" in names && DistinctNames(names)
  {
    var bindings := BindingsFor(scope, candidate);
    assert bindings.Keys == {"candidate", "request"};
    assert |names| == 2 && "candidate" in bindings.Keys && "request" in bindings.Keys;
  }

  /** Every grounding made for a candidate passes the validation of stored results. */
  lemma GroundedIsOk(st: StoreState, scope: DecisionScope, o: Observation, effective: set<Id>)
    requires scope.snapshot in st.snapshots && scope.rules != [] && o.result.Some?
    requires Wellmade(st, scope.rules[0], BindingsFor(scope, o.candidate), scope.snapshot, effective, o.result.value)
    requires o.result.value.snapshot == scope.snapshot && o.result.value.context == scope.context
    ensures ResultOk(st, scope, o, effective)
  {
    var body := st.snapshots[scope.snapshot].rules[scope.rules[0]].body;
    var bindings := BindingsFor(scope, o.candidate);
    OrderedNames(bindings, body.participants);
    OrderedBinds(bindings, body.participants, "candidate");
    OrderedBinds(bindings, body.participants, "request");
    BoundPairIsDistinct(scope, o.candidate, body.participants, st.snapshots[scope.snapshot]);
  }

  /** What every observation of a run made by the evaluation satisfies. */
  ghost predicate Live(st: StoreState, scope: DecisionScope, o: Observation, effective: set<Id>)
  {
    && ObservationOk(st, scope, true, o, effective) && ObservationShape(o)
    && o.candidate in scope.candidates && o.traversed && (o.failure.None? ==> o.evidence.Some?)
  }

  lemma ObservedIsLive(st: StoreState, scope: DecisionScope, candidate: Id, effective: set<Id>)
    requires EnvironmentOk(st, scope) && candidate in scope.candidates
    ensures Live(st, scope, Observe(st, scope, candidate, effective), effective)
  {
    var o := Observe(st, scope, candidate, effective);
    if o.result.Some? {
      GroundWellmade(st, scope.rules[0], BindingsFor(scope, candidate), scope.snapshot, scope.context, effective, o.result.value);
      GroundedIsOk(st, scope, o, effective);
    }
  }

  lemma LiveCompleteness(st: StoreState, scope: DecisionScope, g: DecisionGrounding, effective: set<Id>)
    requires EnvironmentOk(st, scope) && ManifestOk(scope)
    requires Observed(g.observations) == scope.candidates && g.current && !g.interrupted && !g.pruned
    requires forall o :: o in g.observations ==> Live(st, scope, o, effective)
    ensures Completeness(st, scope, g, effective)
         == Some(if exists o :: o in g.observations && o.failure.Some? then InvalidGrounding else CompleteForDeclaredScope)
  {
  }

  /**
   * The evaluation never runs into its own final comparison: for a sound environment with one rule it
   * always publishes a run, in manifest order, that is complete unless some candidate failed.
   */
  lemma EvaluationAgrees(st: StoreState, scope: DecisionScope, effective: set<Id>)
    requires EnvironmentOk(st, scope) && ManifestOk(scope) && |scope.rules| == 1
    ensures EvaluateScope(st, scope, effective) == Ok(Evaluated(st, scope, effective))
    ensures Observed(Evaluated(st, scope, effective).observations) == scope.candidates
    ensures forall o :: o in Evaluated(st, scope, effective).observations ==> Live(st, scope, o, effective)
  {
    var g := Evaluated(st, scope, effective);
    AllObservedLive(st, scope, effective);
    LiveCompleteness(st, scope, g, effective);
  }

  lemma AllObservedLive(st: StoreState, scope: DecisionScope, effective: set<Id>)
    requires EnvironmentOk(st, scope)
    ensures var observations := ObserveAll(st, scope, scope.candidates, effective);
            && Observed(observations) == scope.candidates
            && forall o :: o in observations ==> Live(st, scope, o, effective)
  {
    var observations := ObserveAll(st, scope, scope.candidates, effective);
    forall o | o in observations ensures Live(st, scope, o, effective) {
      var i :| 0 <= i < |scope.candidates| && o == observations[i];
      ObservedIsLive(st, scope, scope.candidates[i], effective);
    }
    assert Observed(observations) == scope.candidates;
  }
}

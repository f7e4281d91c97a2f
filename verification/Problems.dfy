/** The grounded decision problem, the selection from it and the two independent validators of what is
    stored (src/atlas/problem.py). */
module Problems {
  import opened Lineage
  import opened Model
  import opened Ordering
  import opened Rules
  import opened Scopes

  // ---------------------------------------------------------------- objective supports

  /** `_eligible_objective_supports`: the exact integer costs of a candidate in a given view. */
  function Supports(st: StoreState, candidate: Id, version: string, ids: set<Id>, visible: seq<string>): set<Id>
  {
    set x | x in ids && x in st.records && st.records[x].Property? && (PropertyRow, x) !in st.isolated
            && st.records[x].description == candidate && st.records[x].property == "cost" && st.records[x].version == version
            && st.records[x].place in visible && st.records[x].epistemic.Exact? && st.records[x].value.Integer?
  }

  /** `_objective_for_true`. */
  function ObjectiveFor(st: StoreState, candidate: Id, version: string, ids: set<Id>, visible: seq<string>): Option<ObjectiveValue>
  {
    var supports := Supports(st, candidate, version, ids, visible);
    if |supports| != 1 then None
    else
      var x := Only(supports);
      Some(ObjectiveValue(st.records[x].value.number, x, "cost", version, Exact))
  }

  /** `_validate_persisted_objective_support`. */
  predicate SupportOk(st: StoreState, candidate: Id, version: string, v: ObjectiveValue, ids: set<Id>, visible: seq<string>)
  {
    && v.property == "cost" && v.version == version && v.epistemic.Exact?
    && v.record in st.records && st.records[v.record].Property? && (PropertyRow, v.record) !in st.isolated
    && v.record in ids && st.records[v.record].place in visible
    && st.records[v.record].description == candidate && st.records[v.record].property == "cost"
    && st.records[v.record].version == version && st.records[v.record].value == Integer(v.value)
    && st.records[v.record].epistemic.Exact?
    && Supports(st, candidate, version, ids, visible) == {v.record}
  }

  lemma ObjectiveAgrees(st: StoreState, candidate: Id, version: string, v: ObjectiveValue, ids: set<Id>, visible: seq<string>)
    ensures SupportOk(st, candidate, version, v, ids, visible) <==> ObjectiveFor(st, candidate, version, ids, visible) == Some(v)
  {
    var supports := Supports(st, candidate, version, ids, visible);
    if |supports| == 1 {
      var x := Only(supports);
      assert supports == {x};
    } else {
      assert supports != {v.record};
    }
  }

  // ---------------------------------------------------------------- building a problem

  /** Scope exclusions count only for the current schema. */
  predicate InScope(exclusion: Option<string>, current: bool)
  {
    !current || exclusion.None?
  }

  /** The observation a dictionary keyed by candidate holds. */
  function ObservationFor(observations: seq<Observation>, candidate: Id): Option<Observation>
  {
    if observations == [] then None
    else
      var later := ObservationFor(observations[1..], candidate);
      if later.Some? then later else if observations[0].candidate == candidate then Some(observations[0]) else None
  }

  /** The view the supports of a scope's objective are looked up in. */
  datatype Support = Support(version: string, ids: set<Id>, visible: seq<string>, current: bool)

  function BuildCandidate(st: StoreState, view: Support, candidate: Id, o: Option<Observation>): Option<Candidate>
  {
    if o.None? || !o.value.traversed || o.value.result.None? || o.value.truth.None? then None
    else if o.value.truth.value.True? && InScope(o.value.exclusion, view.current) then
      var objective := ObjectiveFor(st, candidate, view.version, view.ids, view.visible);
      if objective.None? then None
      else Some(Candidate(candidate, o.value.truth.value, o.value.result.value, o.value.exclusion, objective))
    else Some(Candidate(candidate, o.value.truth.value, o.value.result.value, o.value.exclusion, None))
  }

  function BuildCandidates(st: StoreState, view: Support, candidates: seq<Id>, observations: seq<Observation>): Option<seq<Candidate>>
  {
    if candidates == [] then Some([])
    else
      var first := BuildCandidate(st, view, candidates[0], ObservationFor(observations, candidates[0]));
      if first.None? then None
      else
        var rest := BuildCandidates(st, view, candidates[1..], observations);
        if rest.None? then None else Some([first.value] + rest.value)
  }

  /** The tests on scope and run that building and validating have in common. */
  predicate Complete(st: StoreState, scope: DecisionScope, g: DecisionGrounding, effective: set<Id>)
  {
    && EnvironmentOk(st, scope)
    && g.status.CompleteForDeclaredScope?
    && Completeness(st, scope, g, effective) == Some(CompleteForDeclaredScope)
    && |scope.rules| == 1
    && "cost" in st.snapshots[scope.snapshot].properties
  }

  function ViewOf(st: StoreState, scope: DecisionScope, current: bool, effective: set<Id>): Support
    requires EnvironmentOk(st, scope) && "cost" in st.snapshots[scope.snapshot].properties
  {
    var snap := st.snapshots[scope.snapshot];
    Support(snap.properties["cost"], AdmissibleRecords(st, scope, current, effective), snap.contexts[scope.context].scopes, current)
  }

  /** `build_grounded_decision_problem`. */
  function BuildProblem(st: StoreState, id: Id, effective: set<Id>): Option<Problem>
  {
    if id !in st.scopes || id !in st.groundings then None
    else
      var scope, g := st.scopes[id], st.groundings[id];
      if g.scope != scope.id || !Complete(st, scope, g, effective) then None
      else
        var view := ViewOf(st, scope, g.current, effective);
        match BuildCandidates(st, view, scope.candidates, g.observations)
        case None => None
        case Some(candidates) =>
          Some(Problem(scope.id, scope.snapshot, scope.context, scope.request, scope.rules[0], view.version, candidates))
  }

  /** The effective records at the snapshot of a scope. */
  ghost function ScopeView(st: StoreState, id: Id): set<Id>
  {
    if id in st.scopes && st.scopes[id].snapshot in st.snapshots then Effective(st, st.scopes[id].snapshot) else {}
  }

  /** The loop over the manifest. */
  method BuildAll(st: StoreState, view: Support, ids: seq<Id>, observations: seq<Observation>) returns (r: Option<seq<Candidate>>)
    ensures r == BuildCandidates(st, view, ids, observations)
  {
    var candidates := [];
    for i := 0 to |ids|
      invariant |candidates| == i
      invariant forall j :: 0 <= j < i ==> BuildCandidate(st, view, ids[j], ObservationFor(observations, ids[j])) == Some(candidates[j])
    {
      var built := BuildCandidate(st, view, ids[i], ObservationFor(observations, ids[i]));
      if built.None? {
        BuiltNever(st, view, ids, observations, i);
        return None;
      }
      candidates := candidates + [built.value];
    }
    BuiltEach(st, view, ids, observations, candidates);
    return Some(candidates);
  }

  method Build(st: StoreState, id: Id) returns (r: Option<Problem>)
    requires ParentsPresent(st.snapshots)
    ensures r == BuildProblem(st, id, ScopeView(st, id))
  {
    if id !in st.scopes || id !in st.groundings {
      return None;
    }
    var scope, g := st.scopes[id], st.groundings[id];
    if scope.snapshot !in st.snapshots {
      return None;
    }
    var effective := EffectiveSet(st, scope.snapshot);
    if g.scope != scope.id || !Complete(st, scope, g, effective) {
      return None;
    }
    var view := ViewOf(st, scope, g.current, effective);
    var candidates := BuildAll(st, view, scope.candidates, g.observations);
    if candidates.None? {
      return None;
    }
    return Some(Problem(scope.id, scope.snapshot, scope.context, scope.request, scope.rules[0], view.version, candidates.value));
  }

  // ---------------------------------------------------------------- validating a stored problem

  predicate CandidateOk(st: StoreState, view: Support, c: Candidate, o: Observation)
  {
    && o.truth == Some(c.truth) && o.result == Some(c.result) && o.exclusion == c.exclusion
    && if c.truth.True? && InScope(c.exclusion, view.current) then
         c.objective.Some? && SupportOk(st, c.candidate, view.version, c.objective.value, view.ids, view.visible)
       else c.objective.None?
  }

  function CandidateIds(candidates: seq<Candidate>): seq<Id>
  {
    seq(|candidates|, i requires 0 <= i < |candidates| => candidates[i].candidate)
  }

  /** `validate_persisted_grounded_decision_problem`. */
  predicate ProblemOk(st: StoreState, p: Problem, effective: set<Id>)
  {
    && p.scope in st.scopes && p.scope in st.groundings
    && var scope, g := st.scopes[p.scope], st.groundings[p.scope];
    && Complete(st, scope, g, effective)
    && p.snapshot == scope.snapshot && p.context == scope.context && p.request == scope.request
    && p.rule == scope.rules[0]
    && var view := ViewOf(st, scope, g.current, effective);
    && p.objectiveVersion == view.version
    && CandidateIds(p.candidates) == scope.candidates && Observed(g.observations) == scope.candidates
    && forall i :: 0 <= i < |p.candidates| ==> |g.observations| == |p.candidates| && CandidateOk(st, view, p.candidates[i], g.observations[i])
  }

  // ---------------------------------------------------------------- the two agree

  lemma {:induction false} FoundAt(observations: seq<Observation>, i: nat)
    requires i < |observations| && DistinctNames(Observed(observations))
    ensures ObservationFor(observations, observations[i].candidate) == Some(observations[i])
  {
    var candidate := observations[i].candidate;
    assert forall j :: 0 <= j < |observations| ==> Observed(observations)[j] == observations[j].candidate;
    if i == 0 {
      NotFound(observations[1..], candidate);
    } else {
      assert Observed(observations[1..]) == Observed(observations)[1..];
      FoundAt(observations[1..], i - 1);
    }
  }

  lemma {:induction false} NotFound(observations: seq<Observation>, candidate: Id)
    requires forall i :: 0 <= i < |observations| ==> observations[i].candidate != candidate
    ensures ObservationFor(observations, candidate).None?
  {
    if observations != [] {
      NotFound(observations[1..], candidate);
    }
  }

  /** Building all candidates amounts to building each of them. */
  lemma {:induction false} BuiltEach(st: StoreState, view: Support, candidates: seq<Id>, observations: seq<Observation>, built: seq<Candidate>)
    ensures BuildCandidates(st, view, candidates, observations) == Some(built)
       <==> && |built| == |candidates|
            && forall i :: 0 <= i < |candidates| ==>
                 BuildCandidate(st, view, candidates[i], ObservationFor(observations, candidates[i])) == Some(built[i])
    decreases |candidates|
  {
    if candidates != [] && built != [] {
      BuiltEach(st, view, candidates[1..], observations, built[1..]);
      assert built == [built[0]] + built[1..];
      assert forall i :: 0 < i < |candidates| ==> candidates[i] == candidates[1..][i - 1];
      assert forall i :: 0 < i < |built| ==> built[i] == built[1..][i - 1];
    }
  }

  lemma BuiltNever(st: StoreState, view: Support, candidates: seq<Id>, observations: seq<Observation>, i: nat)
    requires i < |candidates| && BuildCandidate(st, view, candidates[i], ObservationFor(observations, candidates[i])).None?
    ensures BuildCandidates(st, view, candidates, observations).None?
  {
    var all := BuildCandidates(st, view, candidates, observations);
    if all.Some? {
      BuiltEach(st, view, candidates, observations, all.value);
    }
  }

  lemma CandidateAgrees(st: StoreState, view: Support, c: Candidate, o: Observation)
    requires o.candidate == c.candidate && o.traversed
    ensures CandidateOk(st, view, c, o) <==> BuildCandidate(st, view, c.candidate, Some(o)) == Some(c)
  {
    if c.objective.Some? {
      ObjectiveAgrees(st, c.candidate, view.version, c.objective.value, view.ids, view.visible);
    }
    var built := ObjectiveFor(st, c.candidate, view.version, view.ids, view.visible);
    if built.Some? {
      ObjectiveAgrees(st, c.candidate, view.version, built.value, view.ids, view.visible);
    }
  }

  /**
   * A problem passes the independent validator exactly when it is the problem that building produces
   * and the run lists its observations in manifest order. Restored runs need not do so: building then
   * succeeds, but its result is never accepted.
   */
  lemma ValidExactlyAsBuilt(st: StoreState, p: Problem, effective: set<Id>)
    requires p.scope in st.scopes && st.scopes[p.scope].id == p.scope
    requires p.scope in st.groundings && st.groundings[p.scope].scope == p.scope
    ensures ProblemOk(st, p, effective)
       <==> && BuildProblem(st, p.scope, effective) == Some(p)
            && Observed(st.groundings[p.scope].observations) == st.scopes[p.scope].candidates
  {
    var scope, g := st.scopes[p.scope], st.groundings[p.scope];
    if Complete(st, scope, g, effective) && Observed(g.observations) == scope.candidates {
      var view := ViewOf(st, scope, g.current, effective);
      BuiltEach(st, view, scope.candidates, g.observations, p.candidates);
      assert |g.observations| == |scope.candidates|;
      forall i | 0 <= i < |g.observations|
        ensures ObservationFor(g.observations, scope.candidates[i]) == Some(g.observations[i]) && g.observations[i].candidate == scope.candidates[i]
      {
        assert Observed(g.observations)[i] == g.observations[i].candidate;
        FoundAt(g.observations, i);
      }
      if |p.candidates| == |scope.candidates| {
        forall i | 0 <= i < |p.candidates|
          ensures p.candidates[i].candidate == scope.candidates[i] ==>
                    (CandidateOk(st, view, p.candidates[i], g.observations[i])
                     <==> BuildCandidate(st, view, scope.candidates[i], Some(g.observations[i])) == Some(p.candidates[i]))
        {
          if p.candidates[i].candidate == scope.candidates[i] {
            assert g.observations[i] in g.observations;
            CandidateAgrees(st, view, p.candidates[i], g.observations[i]);
          }
        }
        IdsAgree(p.candidates, scope.candidates);
      }
    }
  }

  lemma IdsAgree(candidates: seq<Candidate>, ids: seq<Id>)
    requires |candidates| == |ids|
    ensures CandidateIds(candidates) == ids <==> forall i :: 0 <= i < |ids| ==> candidates[i].candidate == ids[i]
  {
    if CandidateIds(candidates) == ids {
      assert forall i :: 0 <= i < |ids| ==> CandidateIds(candidates)[i] == candidates[i].candidate;
    }
  }
}

/** The explanation of a stored decision and the checks its parts are constructed under
    (src/atlas/problem.py, `_explain_m1`, `CandidateExplanation`, `DecisionExplanation`). */
module Explanations {
  import opened Graph
  import opened Lineage
  import opened LineageTheorems
  import opened Model
  import opened Ordering
  import opened Problems
  import RestoreClosure
  import opened Rules
  import opened Scopes
  import opened Selections
  import opened Statuses
  import opened Traversal

  // ---------------------------------------------------------------- the values and their checks

  datatype Reason = SelectedCoOptimum | AdmissibleHigherObjective | NotAdmissible | InsufficientInformation | OptimalityUncertified

  datatype CandidateExplanation = CandidateExplanation(
    candidate: Id, truth: Truth, selected: bool, objective: Option<ObjectiveValue>, reason: Reason,
    dependencies: seq<Id>, closure: seq<Id>, missing: seq<MissingRead>, ambiguous: seq<AmbiguousRead>,
    exclusion: Option<string>, sources: seq<Id>, current: bool)

  datatype DecisionExplanation = DecisionExplanation(
    source: Id, problem: Id, status: SelectionStatus, optimum: Option<int>, candidates: seq<CandidateExplanation>, current: bool)

  /** `CandidateExplanation.__post_init__`. */
  predicate CandidateOk(e: CandidateExplanation)
  {
    if e.current && e.exclusion.Some? then !e.selected && e.objective.None? && e.reason.NotAdmissible?
    else
      match e.truth
      case True =>
        && e.objective.Some?
        && (e.reason.SelectedCoOptimum? || e.reason.AdmissibleHigherObjective? || e.reason.OptimalityUncertified?)
        && (e.selected <==> e.reason.SelectedCoOptimum?)
      case False => !e.selected && e.objective.None? && e.reason.NotAdmissible?
      case Unsettled => !e.selected && e.objective.None? && e.reason.InsufficientInformation?
  }

  predicate ResolvedOk(e: DecisionExplanation, c: CandidateExplanation)
    requires e.optimum.Some?
  {
    && (c.selected ==> c.truth.True? && c.reason.SelectedCoOptimum? && c.objective.Some? && c.objective.value.value == e.optimum.value)
    && (!c.selected ==> !c.reason.SelectedCoOptimum?)
    && (c.truth.Unsettled? ==> !InScope(c.exclusion, e.current))
    && (!c.selected && c.truth.True? && InScope(c.exclusion, e.current) ==>
          c.objective.Some? && e.optimum.value < c.objective.value.value && c.reason.AdmissibleHigherObjective?)
  }

  predicate NeedsInformationOk(e: DecisionExplanation, c: CandidateExplanation)
  {
    && (c.truth.True? && InScope(c.exclusion, e.current) ==> c.reason.OptimalityUncertified?)
    && (c.truth.False? ==> c.reason.NotAdmissible?)
    && (c.truth.Unsettled? && InScope(c.exclusion, e.current) ==> c.reason.InsufficientInformation?)
  }

  /** `DecisionExplanation.__post_init__`. */
  predicate DecisionExplanationOk(e: DecisionExplanation)
  {
    && (forall i, j :: 0 <= i < j < |e.candidates| ==> e.candidates[i].candidate != e.candidates[j].candidate)
    && match e.status
       case Resolved =>
         && e.optimum.Some? && 1 <= e.optimum.value && (exists c :: c in e.candidates && c.selected)
         && forall c :: c in e.candidates ==> ResolvedOk(e, c)
       case NeedsInformation =>
         && e.optimum.None? && (forall c :: c in e.candidates ==> !c.selected)
         && (exists c :: c in e.candidates && c.truth.Unsettled?)
         && forall c :: c in e.candidates ==> NeedsInformationOk(e, c)
       case NoAdmissibleCandidate =>
         && e.optimum.None? && (forall c :: c in e.candidates ==> !c.selected)
         && (forall c :: c in e.candidates && InScope(c.exclusion, e.current) ==> c.truth.False?)
         && forall c :: c in e.candidates ==> c.reason.NotAdmissible?
  }

  // ---------------------------------------------------------------- the construction

  function ReasonFor(c: Candidate, d: Decision, current: bool): Option<Reason>
  {
    if !InScope(c.exclusion, current) || c.truth.False? then Some(NotAdmissible)
    else
      match d.status
      case Resolved => Some(if c.candidate in d.coOptima then SelectedCoOptimum else AdmissibleHigherObjective)
      case NeedsInformation => Some(if c.truth.True? then OptimalityUncertified else InsufficientInformation)
      case NoAdmissibleCandidate => None
  }

  function ExplanationOf(c: Candidate, d: Decision, current: bool, reason: Reason, closure: seq<Id>, sources: seq<Id>): CandidateExplanation
  {
    CandidateExplanation(c.candidate, c.truth, c.candidate in d.coOptima, c.objective, reason, c.result.dependencies, closure,
                         c.result.missing, c.result.ambiguous, c.exclusion, sources, current)
  }

  /** A record that is present, with its proof if it claims one. */
  predicate Present(st: StoreState, x: Id)
  {
    x in st.records && (st.records[x].Relation? && st.records[x].derivation.Some? ==> x in st.derivations)
  }

  /** Everything the candidate's grounding depends on is present. */
  ghost predicate DependenciesPresent(st: StoreState, c: Candidate)
  {
    forall x :: ReachFrom(DependencyGraph(st.derivations), c.result.dependencies, x) ==> Present(st, x)
  }

  /** The explanation of one candidate: its reason, the closure of its dependencies and where they come from. */
  ghost predicate Explains(st: StoreState, c: Candidate, d: Decision, current: bool, e: CandidateExplanation)
  {
    && DependenciesPresent(st, c) && CandidateOk(e)
    && Some(e.reason) == ReasonFor(c, d, current)
    && e == ExplanationOf(c, d, current, e.reason, e.closure, e.sources)
    && DistinctNames(e.closure)
    && (forall x :: x in e.closure <==> ReachFrom(DependencyGraph(st.derivations), c.result.dependencies, x))
    && e.sources == SortNames(RestoreClosure.SourcesOf(st.records, e.closure))
  }

  /** There is a reason, and with it the explanation passes its checks whatever the closure is. */
  ghost predicate Explicable(c: Candidate, d: Decision, current: bool)
  {
    && ReasonFor(c, d, current).Some?
    && forall closure, sources :: CandidateOk(ExplanationOf(c, d, current, ReasonFor(c, d, current).value, closure, sources))
  }

  method ExplainCandidate(st: StoreState, c: Candidate, d: Decision, current: bool) returns (r: Option<CandidateExplanation>)
    ensures r.Some? ==> Explains(st, c, d, current, r.value)
    ensures Explicable(c, d, current) ==> (r.Some? <==> DependenciesPresent(st, c))
  {
    var closure := ListReachable(DependencyGraph(st.derivations), x => Present(st, x), c.result.dependencies);
    var reason := ReasonFor(c, d, current);
    if closure.None? || reason.None? {
      return None;
    }
    var e := ExplanationOf(c, d, current, reason.value, closure.value, SortNames(RestoreClosure.SourcesOf(st.records, closure.value)));
    return if CandidateOk(e) then Some(e) else None;
  }

  /** The tests made before anything is explained. */
  ghost predicate Explainable(st: StoreState, decision: Id)
  {
    && decision in st.decisions && st.decisions[decision].source in st.problems
    && var d := st.decisions[decision];
    && var p := st.problems[d.source];
    && ProblemOk(st, p, ScopeView(st, p.scope)) && DecisionOk(p.candidates, IsCurrent(st, p), d)
    && forall i :: 0 <= i < |p.candidates| ==> DependenciesPresent(st, p.candidates[i])
  }

  /**
   * `explain_m1`. For a valid decision over records whose dependencies are all present, an explanation
   * is built exactly when the decision has no optimum below 1; every check of its parts holds.
   */
  method Explain(st: StoreState, decision: Id) returns (r: Option<DecisionExplanation>)
    requires ParentsPresent(st.snapshots)
    ensures r.Some? <==> Explainable(st, decision)
                         && (st.decisions[decision].status.Resolved? ==> 1 <= st.decisions[decision].optimum.value)
    ensures r.Some? ==>
              var d := st.decisions[decision];
              var p := st.problems[d.source];
              && DecisionExplanationOk(r.value)
              && r.value.source == decision && r.value.problem == d.source && r.value.current == IsCurrent(st, p)
              && r.value.status == d.status && r.value.optimum == d.optimum && |r.value.candidates| == |p.candidates|
              && forall i :: 0 <= i < |p.candidates| ==>
                   Explains(st, p.candidates[i], d, IsCurrent(st, p), r.value.candidates[i])
  {
    if decision !in st.decisions || st.decisions[decision].source !in st.problems {
      return None;
    }
    var d := st.decisions[decision];
    var p := st.problems[d.source];
    if p.scope !in st.scopes || st.scopes[p.scope].snapshot !in st.snapshots {
      return None;
    }
    var effective := EffectiveSet(st, st.scopes[p.scope].snapshot);
    var current := IsCurrent(st, p);
    if !ProblemOk(st, p, effective) || !DecisionOk(p.candidates, current, d) {
      return None;
    }
    ValidSelects(st, p, effective, d.source);
    forall i | 0 <= i < |p.candidates| ensures Explicable(p.candidates[i], d, current) {
      AcceptedJudges(p, d, current, i);
      JudgedIsExplicable(p.candidates[i], d, current);
    }
    var explanations := ExplainCandidates(st, p, d, current);
    if explanations.None? {
      return None;
    }
    var explanation := DecisionExplanation(decision, d.source, d.status, d.optimum, explanations.value, current);
    WholeExplained(st, p, d, current, explanation);
    return if DecisionExplanationOk(explanation) then Some(explanation) else None;
  }

  /** The explanations made so far are those of the first candidates. */
  ghost predicate ExplainedUpTo(st: StoreState, p: Problem, d: Decision, current: bool, explanations: seq<CandidateExplanation>, n: nat)
  {
    && |explanations| == n <= |p.candidates|
    && forall i :: 0 <= i < n ==> Explains(st, p.candidates[i], d, current, explanations[i])
  }

  lemma ExplainedStep(st: StoreState, p: Problem, d: Decision, current: bool, explanations: seq<CandidateExplanation>, e: CandidateExplanation)
    requires |explanations| < |p.candidates| && ExplainedUpTo(st, p, d, current, explanations, |explanations|)
    requires Explains(st, p.candidates[|explanations|], d, current, e)
    ensures ExplainedUpTo(st, p, d, current, explanations + [e], |explanations| + 1)
  {
  }

  method ExplainCandidates(st: StoreState, p: Problem, d: Decision, current: bool) returns (r: Option<seq<CandidateExplanation>>)
    requires forall i :: 0 <= i < |p.candidates| ==> Explicable(p.candidates[i], d, current)
    ensures r.Some? <==> forall i :: 0 <= i < |p.candidates| ==> DependenciesPresent(st, p.candidates[i])
    ensures r.Some? ==> ExplainedUpTo(st, p, d, current, r.value, |p.candidates|)
  {
    var explanations := [];
    for i := 0 to |p.candidates|
      invariant ExplainedUpTo(st, p, d, current, explanations, i)
    {
      var e := ExplainCandidate(st, p.candidates[i], d, current);
      if e.None? {
        return None;
      }
      ExplainedStep(st, p, d, current, explanations, e.value);
      explanations := explanations + [e.value];
    }
    return Some(explanations);
  }

  // ---------------------------------------------------------------- why the checks hold

  lemma ValidDistinct(st: StoreState, p: Problem, effective: set<Id>)
    requires ProblemOk(st, p, effective)
    ensures Distinct(p.candidates)
  {
    var g := st.groundings[p.scope];
    assert DistinctNames(Observed(g.observations)) && CandidateIds(p.candidates) == Observed(g.observations);
    IdsDistinct(p.candidates);
  }

  lemma IdsDistinct(candidates: seq<Candidate>)
    requires DistinctNames(CandidateIds(candidates))
    ensures Distinct(candidates)
  {
    forall i, j | 0 <= i < j < |candidates| ensures candidates[i].candidate != candidates[j].candidate {
      assert CandidateIds(candidates)[i] == candidates[i].candidate && CandidateIds(candidates)[j] == candidates[j].candidate;
    }
  }

  ghost predicate Priced(p: Problem, c: Candidate, current: bool)
  {
    (c.objective.Some? <==> Admissible(c, current)) && (InScope(c.exclusion, current) ==> ObjectiveFits(p, c))
  }

  lemma ValidPriced(st: StoreState, p: Problem, effective: set<Id>)
    requires ProblemOk(st, p, effective)
    ensures forall c :: c in p.candidates ==> Priced(p, c, IsCurrent(st, p))
  {
    var scope, g := st.scopes[p.scope], st.groundings[p.scope];
    var view := ViewOf(st, scope, g.current, effective);
    forall c | c in p.candidates ensures Priced(p, c, g.current) {
      var i :| 0 <= i < |p.candidates| && p.candidates[i] == c;
      ValidCandidate(st, view, p, c, g.observations[i]);
    }
  }

  lemma PricedSelects(source: Id, p: Problem, current: bool)
    requires forall c :: c in p.candidates ==> Priced(p, c, current)
    ensures SelectM1(source, p, current).Some?
  {
  }

  /** A valid problem lists its candidates once and always has a selection. */
  lemma ValidSelects(st: StoreState, p: Problem, effective: set<Id>, source: Id)
    requires ProblemOk(st, p, effective)
    ensures Distinct(p.candidates) && SelectM1(source, p, IsCurrent(st, p)).Some?
    ensures forall c :: c in p.candidates ==> (c.objective.Some? <==> Admissible(c, IsCurrent(st, p)))
  {
    ValidDistinct(st, p, effective);
    ValidPriced(st, p, effective);
    PricedSelects(source, p, IsCurrent(st, p));
    assert forall c :: c in p.candidates ==> Priced(p, c, IsCurrent(st, p));
  }

  lemma ValidCandidate(st: StoreState, view: Support, p: Problem, c: Candidate, o: Observation)
    requires Problems.CandidateOk(st, view, c, o) && view.version == p.objectiveVersion
    ensures Priced(p, c, view.current)
  {
  }

  /** What the remaining checks rest on: an accepted decision over candidates with objectives where they belong. */
  ghost predicate Accepted(p: Problem, d: Decision, current: bool)
  {
    && Distinct(p.candidates) && SelectM1(d.source, p, current).Some? && DecisionOk(p.candidates, current, d)
    && forall c :: c in p.candidates ==> (c.objective.Some? <==> Admissible(c, current))
  }

  /** What an accepted decision says about one candidate. */
  ghost predicate Judged(c: Candidate, d: Decision, current: bool)
  {
    && (c.candidate in d.coOptima <==> d.status.Resolved? && d.optimum.Some? && Admissible(c, current) && Cost(c) == d.optimum.value)
    && (d.status.Resolved? && Admissible(c, current) ==> d.optimum.Some? && d.optimum.value <= Cost(c))
    && (InScope(c.exclusion, current) && c.truth.Unsettled? ==> d.status.NeedsInformation?)
    && (d.status.NoAdmissibleCandidate? && InScope(c.exclusion, current) ==> c.truth.False?)
    && (c.objective.Some? <==> Admissible(c, current))
  }

  lemma AcceptedJudges(p: Problem, d: Decision, current: bool, i: nat)
    requires Accepted(p, d, current) && i < |p.candidates|
    ensures Judged(p.candidates[i], d, current)
  {
    var c := p.candidates[i];
    assert c in p.candidates;
    AcceptedExactlyAsSelected(d.source, p, current, d);
    SelectionFinds(d.source, p, current);
    if d.status.Resolved? && c.candidate in d.coOptima {
      var best :| best in p.candidates && Admissible(best, current) && best.candidate == c.candidate && Cost(best) == d.optimum.value;
      SameCandidate(p.candidates, c, best);
    }
  }

  lemma SameCandidate(candidates: seq<Candidate>, a: Candidate, b: Candidate)
    requires Distinct(candidates) && a in candidates && b in candidates && a.candidate == b.candidate
    ensures a == b
  {
  }

  lemma AcceptedOutcome(p: Problem, d: Decision, current: bool)
    requires Accepted(p, d, current)
    ensures d.status.Resolved? <==> d.optimum.Some?
    ensures d.status.Resolved? ==> exists i :: 0 <= i < |p.candidates| && p.candidates[i].candidate in d.coOptima
    ensures d.status.NeedsInformation? ==> exists i :: 0 <= i < |p.candidates| && p.candidates[i].truth.Unsettled?
  {
    AcceptedExactlyAsSelected(d.source, p, current, d);
    SelectionFinds(d.source, p, current);
    if d.status.Resolved? {
      var best :| best in p.candidates && Admissible(best, current) && Cost(best) == d.optimum.value;
      var i :| 0 <= i < |p.candidates| && p.candidates[i] == best;
      assert best.candidate in d.coOptima;
    }
  }

  lemma JudgedIsExplicable(c: Candidate, d: Decision, current: bool)
    requires Judged(c, d, current)
    ensures Explicable(c, d, current)
  {
  }

  /** The check of the whole explanation, for one candidate of it. */
  predicate PartOk(e: DecisionExplanation, c: CandidateExplanation)
  {
    match e.status
    case Resolved => e.optimum.Some? && ResolvedOk(e, c)
    case NeedsInformation => !c.selected && NeedsInformationOk(e, c)
    case NoAdmissibleCandidate => !c.selected && (InScope(c.exclusion, e.current) ==> c.truth.False?) && c.reason.NotAdmissible?
  }

  lemma PartExplained(st: StoreState, c: Candidate, d: Decision, current: bool, e: DecisionExplanation, part: CandidateExplanation)
    requires Judged(c, d, current) && Explains(st, c, d, current, part)
    requires e.status == d.status && e.optimum == d.optimum && e.current == current
    requires d.status.Resolved? <==> d.optimum.Some?
    ensures PartOk(e, part)
  {
  }

  /** The explanations agree with their candidates where the whole explanation looks. */
  ghost predicate Parallel(p: Problem, d: Decision, parts: seq<CandidateExplanation>)
  {
    && |parts| == |p.candidates|
    && forall i :: 0 <= i < |parts| ==>
         && parts[i].candidate == p.candidates[i].candidate && parts[i].truth == p.candidates[i].truth
         && parts[i].selected == (p.candidates[i].candidate in d.coOptima)
  }

  lemma ExplainedParallel(st: StoreState, p: Problem, d: Decision, current: bool, parts: seq<CandidateExplanation>)
    requires ExplainedUpTo(st, p, d, current, parts, |p.candidates|)
    ensures Parallel(p, d, parts)
  {
    forall i | 0 <= i < |parts|
      ensures parts[i].candidate == p.candidates[i].candidate && parts[i].truth == p.candidates[i].truth
              && parts[i].selected == (p.candidates[i].candidate in d.coOptima)
    {
      assert Explains(st, p.candidates[i], d, current, parts[i]);
    }
  }

  lemma ExplainedParts(st: StoreState, p: Problem, d: Decision, current: bool, e: DecisionExplanation)
    requires Accepted(p, d, current)
    requires e.status == d.status && e.optimum == d.optimum && e.current == current
    requires d.status.Resolved? <==> d.optimum.Some?
    requires ExplainedUpTo(st, p, d, current, e.candidates, |p.candidates|)
    ensures forall c :: c in e.candidates ==> PartOk(e, c)
  {
    forall c | c in e.candidates ensures PartOk(e, c) {
      var i :| 0 <= i < |e.candidates| && e.candidates[i] == c;
      AcceptedJudges(p, d, current, i);
      PartExplained(st, p.candidates[i], d, current, e, c);
    }
  }

  lemma ParallelOutcome(p: Problem, d: Decision, e: DecisionExplanation)
    requires Distinct(p.candidates) && Parallel(p, d, e.candidates)
    requires d.status.Resolved? ==> exists i :: 0 <= i < |p.candidates| && p.candidates[i].candidate in d.coOptima
    requires d.status.NeedsInformation? ==> exists i :: 0 <= i < |p.candidates| && p.candidates[i].truth.Unsettled?
    ensures forall i, j :: 0 <= i < j < |e.candidates| ==> e.candidates[i].candidate != e.candidates[j].candidate
    ensures d.status.Resolved? ==> exists c :: c in e.candidates && c.selected
    ensures d.status.NeedsInformation? ==> exists c :: c in e.candidates && c.truth.Unsettled?
  {
    if d.status.Resolved? {
      var i :| 0 <= i < |p.candidates| && p.candidates[i].candidate in d.coOptima;
      assert e.candidates[i] in e.candidates && e.candidates[i].selected;
    }
    if d.status.NeedsInformation? {
      var i :| 0 <= i < |p.candidates| && p.candidates[i].truth.Unsettled?;
      assert e.candidates[i] in e.candidates && e.candidates[i].truth.Unsettled?;
    }
  }

  lemma WholeExplained(st: StoreState, p: Problem, d: Decision, current: bool, e: DecisionExplanation)
    requires Accepted(p, d, current)
    requires e.status == d.status && e.optimum == d.optimum && e.current == current
    requires ExplainedUpTo(st, p, d, current, e.candidates, |p.candidates|)
    ensures DecisionExplanationOk(e) <==> (d.status.Resolved? ==> 1 <= d.optimum.value)
  {
    AcceptedOutcome(p, d, current);
    ExplainedParts(st, p, d, current, e);
    ExplainedParallel(st, p, d, current, e.candidates);
    ParallelOutcome(p, d, e);
    PartsMakeWhole(e);
  }

  lemma PartsMakeWhole(e: DecisionExplanation)
    requires forall c :: c in e.candidates ==> PartOk(e, c)
    requires forall i, j :: 0 <= i < j < |e.candidates| ==> e.candidates[i].candidate != e.candidates[j].candidate
    requires e.status.Resolved? <==> e.optimum.Some?
    requires e.status.Resolved? ==> exists c :: c in e.candidates && c.selected
    requires e.status.NeedsInformation? ==> exists c :: c in e.candidates && c.truth.Unsettled?
    ensures DecisionExplanationOk(e) <==> (e.status.Resolved? ==> 1 <= e.optimum.value)
  {
  }
}

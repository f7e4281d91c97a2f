/** What an explanation says of one candidate, told from the stored values. */
module ExplanationTheorems {
  import opened Explanations
  import opened Graph
  import opened LineageTheorems
  import opened Model
  import opened Ordering
  import RestoreClosure
  import RunChecks
  import opened Rules
  import opened Selections
  import opened StepContents
  import opened Statuses
  import opened Traversal

  /** The trail starts from a record that the candidate's grounding read and comes to `x`. */
  ghost predicate ReadAlong(st: StoreState, c: Candidate, trail: seq<Id>, x: Id)
  {
    trail != [] && trail[0] in c.result.dependencies && trail[|trail| - 1] == x && DependencyChain(st.derivations, trail)
  }

  /** Every such record is stored, and with its proof when it has one. */
  ghost predicate NothingAbsent(st: StoreState, c: Candidate)
  {
    forall trail, x :: ReadAlong(st, c, trail, x) ==>
      x in st.records && (st.records[x].Relation? && st.records[x].derivation.Some? ==> x in st.derivations)
  }

  /** Which reason is given when. */
  ghost predicate ReasonTold(c: Candidate, d: Decision, current: bool, reason: Reason)
  {
    && (reason == NotAdmissible <==> !Counts(c, current) || c.truth == False)
    && (reason == InsufficientInformation <==> Counts(c, current) && c.truth == Unsettled)
    && (reason == OptimalityUncertified <==> Counts(c, current) && c.truth == True && d.status == NeedsInformation)
    && (reason == SelectedCoOptimum <==> d.optimum.Some? && CostsExactly(c, current, d.optimum.value))
    && (reason == AdmissibleHigherObjective <==>
          d.optimum.Some? && exists cost :: cost > d.optimum.value && CostsExactly(c, current, cost))
  }

  /** The explanation repeats what is stored of the candidate and gives the reason. */
  ghost predicate PartsTold(c: Candidate, d: Decision, current: bool, e: CandidateExplanation)
  {
    && e.candidate == c.candidate && e.truth == c.truth && e.objective == c.objective && e.exclusion == c.exclusion && e.current == current
    && e.dependencies == c.result.dependencies && e.missing == c.result.missing && e.ambiguous == c.result.ambiguous
    && (e.selected <==> d.optimum.Some? && CostsExactly(c, current, d.optimum.value))
    && ReasonTold(c, d, current, e.reason)
  }

  /** It lists what the grounding rests on, each record once, and the sources of all of it. */
  ghost predicate ExplanationTold(st: StoreState, c: Candidate, d: Decision, current: bool, e: CandidateExplanation)
  {
    && PartsTold(c, d, current, e)
    && ListedOnce(e.closure) && (forall x :: x in e.closure <==> exists trail :: ReadAlong(st, c, trail, x))
    && Ascending(e.sources) && RestoreClosure.SourcedBy(e.sources, e.closure, st.records)
  }

  lemma ReadExactly(st: StoreState, c: Candidate, x: Id)
    ensures ReachFrom(DependencyGraph(st.derivations), c.result.dependencies, x) <==> exists trail :: ReadAlong(st, c, trail, x)
  {
    var g := DependencyGraph(st.derivations);
    if ReachFrom(g, c.result.dependencies, x) {
      var from :| from in c.result.dependencies && Reach(g, from, x);
      var steps :| Path(g, from, steps, x);
      var trail := [from] + steps;
      assert trail[1..] == steps;
      PathIsChain(st.derivations, trail, x);
      assert ReadAlong(st, c, trail, x);
    }
    if trail :| ReadAlong(st, c, trail, x) {
      PathIsChain(st.derivations, trail, x);
      assert Reach(g, trail[0], x);
    }
  }

  lemma AbsentExactly(st: StoreState, c: Candidate)
    ensures DependenciesPresent(st, c) <==> NothingAbsent(st, c)
  {
    if DependenciesPresent(st, c) {
      forall trail, x | ReadAlong(st, c, trail, x) ensures Present(st, x) {
        ReadExactly(st, c, x);
      }
    }
    if NothingAbsent(st, c) {
      forall x | ReachFrom(DependencyGraph(st.derivations), c.result.dependencies, x) ensures Present(st, x) {
        ReadExactly(st, c, x);
      }
    }
  }

  lemma ReasonExactly(c: Candidate, d: Decision, current: bool, reason: Reason)
    requires Judged(c, d, current) && (d.status == Resolved <==> d.optimum.Some?)
    ensures ReasonFor(c, d, current) == Some(reason) <==> ReasonTold(c, d, current, reason)
    ensures c.candidate in d.coOptima <==> d.optimum.Some? && CostsExactly(c, current, d.optimum.value)
  {
    if d.optimum.Some? && c.objective.Some? && Admissible(c, current) {
      assert CostsExactly(c, current, Cost(c));
    }
  }

  lemma SourcesExactly(st: StoreState, e: CandidateExplanation)
    ensures e.sources == SortNames(RestoreClosure.SourcesOf(st.records, e.closure))
       <==> Ascending(e.sources) && RestoreClosure.SourcedBy(e.sources, e.closure, st.records)
  {
    var sorted := SortNames(RestoreClosure.SourcesOf(st.records, e.closure));
    RestoreClosure.SourcesExactly(e.sources, e.closure, st.records);
    RestoreClosure.SourcesExactly(sorted, e.closure, st.records);
    assert (set s | s in sorted) == RestoreClosure.SourcesOf(st.records, e.closure);
    if Ascending(e.sources) && RestoreClosure.SourcedBy(e.sources, e.closure, st.records) {
      forall s ensures s in e.sources <==> s in sorted {
        assert s in e.sources <==> s in set x | x in e.sources;
      }
      AscendingUnique(e.sources, sorted);
    }
  }

  lemma ClosureExactly(st: StoreState, c: Candidate, closure: seq<Id>)
    ensures DistinctNames(closure) && (forall x :: x in closure <==> ReachFrom(DependencyGraph(st.derivations), c.result.dependencies, x))
       <==> ListedOnce(closure) && forall x :: x in closure <==> exists trail :: ReadAlong(st, c, trail, x)
  {
    RunChecks.DistinctIsListedOnce(closure);
    forall x ensures ReachFrom(DependencyGraph(st.derivations), c.result.dependencies, x) <==> exists trail :: ReadAlong(st, c, trail, x) {
      ReadExactly(st, c, x);
    }
  }

  /** What is repeated of the candidate, in the terms of the code. */
  lemma PartsExactly(c: Candidate, d: Decision, current: bool, e: CandidateExplanation)
    requires Judged(c, d, current) && (d.status == Resolved <==> d.optimum.Some?)
    ensures Some(e.reason) == ReasonFor(c, d, current) && e == ExplanationOf(c, d, current, e.reason, e.closure, e.sources)
       <==> PartsTold(c, d, current, e)
    ensures PartsTold(c, d, current, e) ==> CandidateOk(e)
  {
    ReasonExactly(c, d, current, e.reason);
    JudgedIsExplicable(c, d, current);
  }

  /** A candidate of an accepted decision is explained exactly when nothing it rests on is absent, and as told. */
  lemma ExplainsExactly(st: StoreState, p: Problem, d: Decision, current: bool, i: nat, e: CandidateExplanation)
    requires Accepted(p, d, current) && i < |p.candidates|
    ensures var c := p.candidates[i];
            Explains(st, c, d, current, e) <==> NothingAbsent(st, c) && ExplanationTold(st, c, d, current, e)
  {
    var c := p.candidates[i];
    AcceptedOutcome(p, d, current);
    AcceptedJudges(p, d, current, i);
    AbsentExactly(st, c);
    PartsExactly(c, d, current, e);
    SourcesExactly(st, e);
    ClosureExactly(st, c, e.closure);
  }
}

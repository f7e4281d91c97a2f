/** What the methods of the store object may rely on in every reachable state. */
module StoreGuarantees {
  import opened Graph
  import opened Lineage
  import opened LineageTheorems
  import opened Model
  import opened Ordering
  import opened Problems
  import opened Rules
  import opened Scopes
  import opened Selections
  import opened Statuses
  import opened StoreInvariants
  import opened StoreSteps

  /** The state and everything that later steps make of it is sound. */
  ghost predicate Trusted(st: StoreState)
  {
    forall steps {:trigger Sound(Run(st, steps))} :: Sound(Run(st, steps))
  }

  /** Soundness now is soundness for good. */
  lemma TrustedExactly(st: StoreState)
    ensures Trusted(st) <==> Sound(st)
  {
    if Trusted(st) {
      assert Sound(Run(st, []));
    }
    if Sound(st) {
      forall steps ensures Sound(Run(st, steps)) {
        RunKeepsSound(st, steps);
      }
    }
  }

  lemma TrustAfter(st: StoreState, step: Step)
    requires Trusted(st)
    ensures Trusted(After(st, step))
  {
    forall steps ensures Sound(Run(After(st, step), steps)) {
      assert ([step] + steps)[1..] == steps;
      assert Sound(Run(st, [step] + steps));
    }
  }

  lemma SoundParents(st: StoreState)
    requires Trusted(st)
    ensures ParentsPresent(st.snapshots)
  {
    TrustedExactly(st);
    SoundHolds(st);
  }

  lemma SoundNoCycle(st: StoreState, derived: Id, r: GroundingResult)
    requires Trusted(st) && DerivationFits(st, derived, r)
    ensures !WouldCycle(st, derived, r.dependencies)
  {
    TrustedExactly(st);
    CycleTestNeverFires(st, derived, r.dependencies);
  }

  /** A stored scope without a run evaluates exactly when it prescribes one rule. */
  lemma StoredEvaluates(st: StoreState, id: Id)
    requires Trusted(st) && id in st.scopes
    ensures st.scopes[id].snapshot in st.snapshots && ParentsPresent(st.snapshots)
    ensures EvaluateScope(st, st.scopes[id], ScopeView(st, id)).Ok? <==> |st.scopes[id].rules| == 1
  {
    TrustedExactly(st);
    SoundHolds(st);
    assert ScopeSound(st, id);
    if |st.scopes[id].rules| == 1 {
      EvaluationAgrees(st, st.scopes[id], ScopeView(st, id));
    }
  }

  lemma RunScopePublishes(st: StoreState, id: Id, g: Result<DecisionGrounding>)
    requires id in st.scopes && id !in st.groundings && g == EvaluateScope(st, st.scopes[id], ScopeView(st, id))
    ensures RunScope(st, id) == if g.Ok? then Ok(st.(groundings := st.groundings[id := g.value])) else Err(g.reason)
  {
  }

  lemma StoredProblem(st: StoreState, id: Id)
    requires Trusted(st) && id in st.problems
    ensures IsCurrent(st, st.problems[id]) && Distinct(st.problems[id].candidates) && SelectM1(id, st.problems[id], true).Some?
  {
    TrustedExactly(st);
    assert ProblemSound(st, id);
    assert GroundingSound(st, st.problems[id].scope);
  }

  lemma SelectionFits(source: Id, p: Problem, decision: Id)
    requires Distinct(p.candidates) && SelectM1(source, p, true).Some?
    ensures var s := SelectM1(source, p, true).value;
            s.source == source && SelectionShape(s) && DecisionOk(p.candidates, true, DecisionOf(decision, s))
  {
    var s := SelectM1(source, p, true).value;
    AcceptedExactlyAsSelected(source, p, true, DecisionOf(decision, s));
    SelectedIsAccepted(p, true, s);
  }

  /** The selection from a stored problem is always admitted as a decision. */
  lemma SelectionIsAdmitted(st: StoreState, id: Id, decision: Id)
    requires Trusted(st) && id in st.problems && decision !in st.decisions
    ensures SelectM1(id, st.problems[id], true).Some?
    ensures AddDecision(st, decision, SelectM1(id, st.problems[id], true).value).Ok?
  {
    TrustedExactly(st);
    StoredProblem(st, id);
    SelectionFits(id, st.problems[id], decision);
  }
}

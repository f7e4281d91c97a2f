/** What publishing a problem or a decision demands and stores, told from the stored values. */
module Publications {
  import opened Model
  import opened RunChecks
  import opened Problems
  import opened Selections
  import opened StepContents
  import opened StoreGuarantees
  import opened StoreInvariants
  import opened StoreSteps

  /** A problem is published exactly under a new identity and as its complete run gives it. */
  lemma ProblemAddedExactly(st: StoreState, id: Id, p: Problem)
    ensures var r := AddProblem(st, id, p); var effective := ScopeView(st, p.scope);
            && (r.Ok? <==>
                  && id !in st.problems && Buildable(st, p.scope, effective)
                  && ProblemTold(st, st.scopes[p.scope], st.groundings[p.scope], effective, p))
            && (r.Ok? ==> r.value == st.(problems := st.problems[id := p]))
  {
    BuildExactly(st, p.scope, ScopeView(st, p.scope), p);
  }

  /** The stored decision repeats the selection under its own identity. */
  ghost predicate DecisionTold(id: Id, s: Selection, d: Decision)
  {
    d.id == id && d.source == s.source && d.status == s.status && d.optimum == s.optimum && d.coOptima == s.coOptima
  }

  /** Both tests of a selection together. */
  lemma OutcomeExactly(p: Problem, id: Id, s: Selection)
    requires Distinct(p.candidates) && SelectM1(s.source, p, true).Some?
    ensures SelectionShape(s) && DecisionOk(p.candidates, true, DecisionOf(id, s))
       <==> OutcomeTold(p, true, s.status, s.optimum, s.coOptima) && ListedOnce(s.coOptima)
  {
    SelectableExactly(s.source, p, true);
    DecisionExactly(p, true, DecisionOf(id, s));
    DistinctIsListedOnce(s.coOptima);
  }

  /** A decision is published exactly under a new identity, over a stored problem, and with the outcome this has. */
  lemma DecisionAddedExactly(st: StoreState, id: Id, s: Selection)
    requires Trusted(st)
    ensures var r := AddDecision(st, id, s);
            && (r.Ok? <==>
                  && id !in st.decisions && s.source in st.problems
                  && OutcomeTold(st.problems[s.source], true, s.status, s.optimum, s.coOptima) && ListedOnce(s.coOptima))
            && (r.Ok? ==>
                  && id in r.value.decisions && DecisionTold(id, s, r.value.decisions[id])
                  && r.value == st.(decisions := st.decisions[id := r.value.decisions[id]]))
  {
    if s.source in st.problems {
      StoredProblem(st, s.source);
      OutcomeExactly(st.problems[s.source], id, s);
    }
  }
}

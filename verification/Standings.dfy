/** The standing of a decision in a sound store, told from the stored run, problem, proofs and replacements. */
module Standings {
  import opened Lineage
  import opened Model
  import opened Ordering
  import opened Problems
  import opened RunChecks
  import opened Selections
  import opened Statuses
  import opened StatusFrames
  import opened StoreInvariants
  import opened StoreTheorems

  /** The problem is what its scope, its run and the records effective at its snapshot still give. */
  ghost predicate Upheld(st: StoreState, p: Problem)
  {
    && Buildable(st, p.scope, ScopeView(st, p.scope))
    && ProblemTold(st, st.scopes[p.scope], st.groundings[p.scope], ScopeView(st, p.scope), p)
  }

  /** Something the decision is based on, or rests on further down, was replaced where the reference sees it. */
  ghost predicate Undermined(st: StoreState, p: Problem, reference: Id)
  {
    exists x, trail :: LeadsTo(st, p, trail, x) && x in st.supersessions && Descends(st.snapshots, reference, st.supersessions[x].snapshot)
  }

  lemma UpheldExactly(st: StoreState, p: Problem)
    requires DecisionsSound(st) && p.scope in st.groundings
    ensures Upheld(st, p) <==> ProblemOk(st, p, ScopeView(st, p.scope))
  {
    assert GroundingSound(st, p.scope) && ScopeSound(st, p.scope);
    BuildExactly(st, p.scope, ScopeView(st, p.scope), p);
    ValidExactlyAsBuilt(st, p, ScopeView(st, p.scope));
  }

  lemma UnderminedExactly(st: StoreState, p: Problem, reference: Id)
    ensures Undermined(st, p, reference) <==> Replaced(st, p, reference)
  {
    forall x ensures RestsOn(st, p, x) <==> exists trail :: LeadsTo(st, p, trail, x) {
      RestsOnExactly(st, p, x);
    }
    if Replaced(st, p, reference) {
      var x :| x in Visible(st, reference) && RestsOn(st, p, x);
      var trail := RestsAlong(st, p, x);
    }
    if Undermined(st, p, reference) {
      var x, trail :| LeadsTo(st, p, trail, x) && x in st.supersessions && Descends(st.snapshots, reference, st.supersessions[x].snapshot);
      AlongRests(st, p, trail, x);
    }
  }

  /** INVALID off the branch of the problem's snapshot or once the problem is no longer upheld; otherwise STALE exactly
      when it is undermined, and CURRENT when not. */
  lemma StatusExactly(st: StoreState, decision: Id, reference: Id)
    requires DecisionsSound(st) && decision in st.decisions && reference in st.snapshots
    ensures st.decisions[decision].source in st.problems
    ensures var p := st.problems[st.decisions[decision].source];
            StatusOf(st, decision, reference)
            == Some(if !Upheld(st, p) || !Descends(st.snapshots, reference, p.snapshot) then Invalid
                    else if Undermined(st, p, reference) then Stale
                    else Current)
  {
    FiledDecision(st, decision);
    var p := st.problems[st.decisions[decision].source];
    UpheldExactly(st, p);
    UnderminedExactly(st, p, reference);
  }
}

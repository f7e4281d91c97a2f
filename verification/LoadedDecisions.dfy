/** Which scopes, runs, problems and decisions of a file are restored, told from what they say. */
module LoadedDecisions {
  import Explanations
  import opened Lineage
  import opened LoadedStates
  import opened Model
  import opened Ordering
  import opened Problems
  import opened Reopening
  import opened Rules
  import opened RunChecks
  import opened Scopes
  import opened Selections
  import opened Standings
  import opened Statuses
  import opened StepContents
  import opened StoreInvariants
  import opened StoreSteps

  // ---------------------------------------------------------------- scopes

  ghost predicate ScopeFits(st: StoreState, s: Id, scope: DecisionScope)
  {
    && scope.id == s && ListedOnce(scope.candidates) && ListedOnce(scope.rules) && Agreed(st, scope)
    && (scope.current ==> scope.intention != scope.request)
  }

  lemma ScopeLoadedExactly(rows: Stored, st: StoreState, s: Id)
    requires st.scopes == ScopesFrom(rows, BeforeScopes(st))
    ensures s in st.scopes <==> s in rows.scopes && ScopeFits(st, s, rows.scopes[s])
    ensures s in st.scopes ==> st.scopes[s] == rows.scopes[s]
  {
  }

  // ---------------------------------------------------------------- runs

  /** A traversed candidate has a grounding, which gives the truth, or a failure and no truth; one that was not traversed
      has neither grounding nor truth; under the current schema what did not fail has evidence. */
  ghost predicate ObservationFits(current: bool, o: Observation)
  {
    && (o.traversed ==> (o.result.Some? <==> o.failure.None?))
    && (!o.traversed ==> o.result.None?)
    && (o.result.Some? ==> o.truth == Some(o.result.value.truth))
    && (o.failure.Some? || !o.traversed ==> o.truth.None?)
    && (current && o.failure.None? ==> o.evidence.Some?)
  }

  /** A run of one shape, sound in its environment, that is stored under its recomputed status. */
  ghost predicate RunFits(st: StoreState, s: Id, g: DecisionGrounding)
  {
    && s in st.scopes && g.scope == s
    && (forall o :: o in g.observations ==> ObservationFits(g.current, o))
    && RunSound(st, st.scopes[s], g, ScopeView(st, s))
    && g.status == if exists o :: o in g.observations && o.failure.Some? then InvalidGrounding
                   else if WentThrough(st.scopes[s], g) then CompleteForDeclaredScope
                   else Incomplete
  }

  lemma ObservationShapeExactly(current: bool, o: Observation)
    ensures ObservationShape(o) && (current && o.failure.None? ==> o.evidence.Some?) <==> ObservationFits(current, o)
  {
  }

  lemma RunShapeExactly(g: DecisionGrounding)
    requires DistinctNames(Observed(g.observations))
    ensures RunShape(g) <==> forall o :: o in g.observations ==> ObservationFits(g.current, o)
  {
    forall o ensures ObservationShape(o) && (g.current && o.failure.None? ==> o.evidence.Some?) <==> ObservationFits(g.current, o) {
      ObservationShapeExactly(g.current, o);
    }
  }

  lemma RunRowExactly(st: StoreState, s: Id, g: DecisionGrounding)
    ensures RunRowFits(st, s, g, ScopeView(st, s)) <==> RunFits(st, s, g)
  {
    if s in st.scopes {
      CompletenessExactly(st, st.scopes[s], g, ScopeView(st, s));
      ObservedExactly(g.observations, "");
      if DistinctNames(Observed(g.observations)) {
        RunShapeExactly(g);
      }
    }
  }

  /** Whether a run fits does not depend on runs, problems and decisions. */
  lemma RunFitsBefore(st: StoreState, s: Id, g: DecisionGrounding)
    ensures RunRowFits(BeforeRuns(st), s, g, ScopeView(BeforeRuns(st), s)) <==> RunRowFits(st, s, g, ScopeView(st, s))
  {
    assert ScopeView(BeforeRuns(st), s) == ScopeView(st, s);
    if s in st.scopes {
      SameCompleteness(st, BeforeRuns(st), st.scopes[s], g, ScopeView(st, s));
    }
  }

  lemma SameCompleteness(st: StoreState, other: StoreState, scope: DecisionScope, g: DecisionGrounding, effective: set<Id>)
    requires other == st.(groundings := other.groundings, problems := other.problems, decisions := other.decisions)
    ensures Completeness(other, scope, g, effective) == Completeness(st, scope, g, effective)
  {
    forall o ensures ObservationOk(other, scope, g.current, o, effective) <==> ObservationOk(st, scope, g.current, o, effective) {
      SameDiscovery(st, other, scope, o.candidate, effective);
    }
  }

  lemma SameDiscovery(st: StoreState, other: StoreState, scope: DecisionScope, candidate: Id, effective: set<Id>)
    requires other == st.(groundings := other.groundings, problems := other.problems, decisions := other.decisions)
    ensures scope.snapshot in st.snapshots && scope.context in st.snapshots[scope.snapshot].contexts ==>
              Discover(other, scope, candidate, effective) == Discover(st, scope, candidate, effective)
  {
    if scope.snapshot in st.snapshots && scope.context in st.snapshots[scope.snapshot].contexts {
      var snap := st.snapshots[scope.snapshot];
      if "realizes" in snap.predicates {
        var version := snap.predicates["realizes"];
        var matches := Realizing(st, scope, version, candidate, effective);
        assert Realizing(other, scope, version, candidate, effective) == matches;
        assert WithinScopes(other, matches, snap.contexts[scope.context].scopes) == WithinScopes(st, matches, snap.contexts[scope.context].scopes);
      }
    }
  }

  /** A run is restored exactly when it fits. */
  lemma RunLoadedExactly(rows: Stored, st: StoreState, s: Id)
    requires st.groundings == RunsFrom(rows, BeforeRuns(st))
    ensures s in st.groundings <==> s in rows.groundings && RunFits(st, s, rows.groundings[s])
    ensures s in st.groundings ==> st.groundings[s] == rows.groundings[s]
  {
    if s in rows.groundings {
      RunFitsBefore(st, s, rows.groundings[s]);
      RunRowExactly(st, s, rows.groundings[s]);
    }
  }

  // ---------------------------------------------------------------- problems

  /** The problem is upheld by its run, which lists its observations in manifest order. */
  ghost predicate ProblemFits(st: StoreState, p: Problem)
  {
    && ListedOnce(CandidateIds(p.candidates))
    && (forall c :: c in p.candidates ==> c.truth == c.result.truth && (c.objective.Some? ==> c.truth == True))
    && Upheld(st, p) && Observed(st.groundings[p.scope].observations) == st.scopes[p.scope].candidates
  }

  lemma SameProblem(st: StoreState, other: StoreState, p: Problem, effective: set<Id>)
    requires other == st.(problems := other.problems, decisions := other.decisions)
    ensures ProblemOk(other, p, effective) <==> ProblemOk(st, p, effective)
  {
    if p.scope in st.scopes && p.scope in st.groundings {
      var scope, g := st.scopes[p.scope], st.groundings[p.scope];
      SameCompleteness(st, other, scope, g, effective);
      if Complete(st, scope, g, effective) {
        var view := ViewOf(st, scope, g.current, effective);
        assert ViewOf(other, scope, g.current, effective) == view;
        forall c, o ensures Problems.CandidateOk(other, view, c, o) <==> Problems.CandidateOk(st, view, c, o) {
          assert Supports(other, c.candidate, view.version, view.ids, view.visible) == Supports(st, c.candidate, view.version, view.ids, view.visible);
        }
      }
    }
  }

  lemma ProblemRowExactly(st: StoreState, p: Problem)
    requires p.scope in st.scopes ==> st.scopes[p.scope].id == p.scope
    requires p.scope in st.groundings ==> st.groundings[p.scope].scope == p.scope
    ensures ProblemRowFits(st, p, ScopeView(st, p.scope)) <==> ProblemFits(st, p)
  {
    DistinctIsListedOnce(CandidateIds(p.candidates));
    if p.scope in st.scopes && p.scope in st.groundings {
      ValidExactlyAsBuilt(st, p, ScopeView(st, p.scope));
      BuildExactly(st, p.scope, ScopeView(st, p.scope), p);
    }
  }

  lemma FiledScopes(rows: Stored, st: StoreState, s: Id)
    requires DecisionsLoaded(rows, st)
    ensures s in st.scopes ==> st.scopes[s].id == s
    ensures s in st.groundings ==> s in st.scopes && st.groundings[s].scope == s
  {
    ScopeLoadedExactly(rows, st, s);
    RunLoadedExactly(rows, st, s);
  }

  lemma ProblemRowBefore(st: StoreState, p: Problem)
    ensures ScopeView(BeforeProblems(st), p.scope) == ScopeView(st, p.scope)
    ensures ProblemRowFits(BeforeProblems(st), p, ScopeView(st, p.scope)) <==> ProblemRowFits(st, p, ScopeView(st, p.scope))
  {
    SameProblem(st, BeforeProblems(st), p, ScopeView(st, p.scope));
  }

  lemma ProblemRowKept(rows: Stored, st: StoreState, id: Id)
    requires id in rows.problems && st.problems == ProblemsFrom(rows, BeforeProblems(st))
    requires ScopeView(BeforeProblems(st), rows.problems[id].scope) == ScopeView(st, rows.problems[id].scope)
    ensures id in st.problems <==> ProblemRowFits(BeforeProblems(st), rows.problems[id], ScopeView(st, rows.problems[id].scope))
  {
  }

  lemma ProblemRowsExactly(rows: Stored, st: StoreState, id: Id)
    requires id in rows.problems && st.problems == ProblemsFrom(rows, BeforeProblems(st))
    requires var p := rows.problems[id];
             && (p.scope in st.scopes ==> st.scopes[p.scope].id == p.scope)
             && (p.scope in st.groundings ==> st.groundings[p.scope].scope == p.scope)
    ensures id in st.problems <==> ProblemFits(st, rows.problems[id])
  {
    ProblemRowBefore(st, rows.problems[id]);
    ProblemRowKept(rows, st, id);
    ProblemRowExactly(st, rows.problems[id]);
  }

  /** A problem is restored exactly when it fits. */
  lemma ProblemLoadedExactly(rows: Stored, st: StoreState, id: Id)
    requires DecisionsLoaded(rows, st)
    ensures id in st.problems <==> id in rows.problems && ProblemFits(st, rows.problems[id])
    ensures id in st.problems ==> st.problems[id] == rows.problems[id]
  {
    if id in rows.problems {
      FiledScopes(rows, st, rows.problems[id].scope);
      ProblemRowsExactly(rows, st, id);
    }
  }

  // ---------------------------------------------------------------- decisions

  /** A decision has the outcome told of its problem, with every co-optimum listed once. */
  ghost predicate DecisionFits(st: StoreState, id: Id, d: Decision)
  {
    && d.id == id && d.source in st.problems && st.problems[d.source].scope in st.groundings
    && OutcomeTold(st.problems[d.source], st.groundings[st.problems[d.source].scope].current, d.status, d.optimum, d.coOptima)
    && ListedOnce(d.coOptima)
  }

  lemma OutcomeHasShape(p: Problem, current: bool, d: Decision)
    requires OutcomeTold(p, current, d.status, d.optimum, d.coOptima) && ListedOnce(d.coOptima)
    ensures SelectionShape(OutcomeOf(d))
  {
  }

  lemma LoadedSelects(rows: Stored, st: StoreState, id: Id)
    requires DecisionsLoaded(rows, st) && id in st.problems
    ensures var p := st.problems[id];
            p.scope in st.groundings && Distinct(p.candidates) && Selectable(p, st.groundings[p.scope].current)
  {
    var p := st.problems[id];
    ProblemLoadedExactly(rows, st, id);
    FiledScopes(rows, st, p.scope);
    ProblemRowExactly(st, p);
    Explanations.ValidSelects(st, p, ScopeView(st, p.scope), id);
    SelectionMeans(id, p, st.groundings[p.scope].current);
  }

  /** A decision is restored exactly when it fits. */
  lemma DecisionLoadedExactly(rows: Stored, st: StoreState, id: Id)
    requires DecisionsLoaded(rows, st)
    ensures id in st.decisions <==> id in rows.decisions && DecisionFits(st, id, rows.decisions[id])
    ensures id in st.decisions ==> st.decisions[id] == rows.decisions[id]
  {
    if id in rows.decisions && rows.decisions[id].source in st.problems {
      var d := rows.decisions[id];
      var p := st.problems[d.source];
      LoadedSelects(rows, st, d.source);
      DecisionRowExactly(st, id, d);
      assert DecisionRowFits(BeforeDecisions(st), id, d) <==> DecisionRowFits(st, id, d);
    }
  }

  lemma DecisionRowExactly(st: StoreState, id: Id, d: Decision)
    requires d.source in st.problems
    requires var p := st.problems[d.source];
             p.scope in st.groundings && Distinct(p.candidates) && Selectable(p, st.groundings[p.scope].current)
    ensures DecisionRowFits(st, id, d) <==> DecisionFits(st, id, d)
  {
    var p := st.problems[d.source];
    var current := st.groundings[p.scope].current;
    DecisionExactly(p, current, d);
    if OutcomeTold(p, current, d.status, d.optimum, d.coOptima) && ListedOnce(d.coOptima) {
      OutcomeHasShape(p, current, d);
    }
  }
}

/** A file whose one run lists its observations out of manifest order: it is opened with the run, a problem is
    built from the run and admitted, and no problem over it is ever valid. */
module DisorderedRuns {
  import opened Graph
  import opened Grounding
  import opened Lineage
  import opened LineageTheorems
  import opened LoadedStates
  import opened Model
  import opened Ordering
  import opened Problems
  import opened Reopening
  import opened ReopeningTheorems
  import opened ReopeningWitnesses
  import opened RestoreClosure
  import opened Rules
  import opened RuleTheorems
  import opened Scopes
  import opened StoreInvariants
  import opened StoreSteps
  import opened StoreTheorems
  import opened SupersessionRestore
  import opened Supersessions

  // ---------------------------------------------------------------- the knowledge and the scope

  function PickVocabulary(): Vocabulary
  {
    Vocabulary(map[("fits", "1") := 2, ("realizes", "1") := 2], map[("cost", "1") := IntegerKind, ("p", "1") := FiniteSetKind])
  }

  function PickHead(): Head
  {
    Head("fits", "1", ["candidate", "request"], Positive)
  }

  function PickBody(): RuleBody
  {
    RuleBody(["candidate", "request"], PickHead(), SubsetOf("candidate"))
  }

  function Pick(): Rule
  {
    Rule("1", PickBody(), true)
  }

  function PickContext(): Context
  {
    Context(["here"], ["pick"])
  }

  function PickSnapshot(): Snapshot
  {
    Snapshot("s", None, [], map["fits" := "1", "realizes" := "1"], map["cost" := "1", "p" := "1"],
             map["all" := PickContext()], map["pick" := Pick()], {"a", "b", "want", "ask"})
  }

  function PickScope(): DecisionScope
  {
    DecisionScope("scope", "s", "all", "want", "ask", ["a", "b"], ["pick"], true)
  }

  function PickKnowledge(): StoreState
  {
    EmptyStore().(vocabulary := PickVocabulary(), descriptions := {"a", "b", "want", "ask"}, rules := map["pick" := Pick()],
                  contexts := map["all" := PickContext()], snapshots := map["s" := PickSnapshot()])
  }

  lemma PickAdmitted()
    ensures AdmitRule(PickVocabulary(), "1", PickBody()) == Ok(Pick())
  {
    SeemsDistinctExactly(["candidate", "request"]);
    SubsetAdmitted(PickVocabulary(), PickHead(), "candidate");
  }

  // ---------------------------------------------------------------- the run

  /** What the evaluation of the rule finds for a candidate: its property is unknown. */
  function PickResult(candidate: Id): GroundingResult
  {
    var missing := MissingRead("candidate", candidate, "p", "1");
    GroundingResult("pick", "1", [("candidate", candidate), ("request", "ask")], Unsettled, None, [], [missing, missing], [], "s", "all")
  }

  function PickObservation(candidate: Id): Observation
  {
    Observation(candidate, true, Some(Unsettled), Some(PickResult(candidate)), Some("excluded_by_context"), None,
                Some(DiscoveryEvidence("1", [candidate, "want"], [], [], [])))
  }

  /** The run lists b before a, the manifest a before b. */
  function PickRun(): DecisionGrounding
  {
    DecisionGrounding("scope", [PickObservation("b"), PickObservation("a")], CompleteForDeclaredScope, false, false, true)
  }

  function PickStore(): StoreState
  {
    PickKnowledge().(scopes := map["scope" := PickScope()], groundings := map["scope" := PickRun()])
  }

  function PickRows(): Stored
  {
    RowsOf(PickStore(), [])
  }

  /** Scopes, runs, problems and decisions apart, the state is the one above. */
  ghost predicate KnowsPick(st: StoreState)
  {
    BeforeScopes(st) == PickKnowledge()
  }

  lemma PickFields(st: StoreState)
    requires KnowsPick(st)
    ensures st.vocabulary == PickVocabulary() && st.records == map[] && st.derivations == map[] && st.supersessions == map[]
    ensures st.snapshots == map["s" := PickSnapshot()] && st.rules == map["pick" := Pick()] && st.contexts == map["all" := PickContext()]
    ensures st.isolated == {}
  {
    var known := BeforeScopes(st);
    assert known.vocabulary == st.vocabulary && known.records == st.records && known.derivations == st.derivations;
    assert known.supersessions == st.supersessions && known.snapshots == st.snapshots && known.rules == st.rules;
    assert known.contexts == st.contexts && known.isolated == st.isolated;
  }

  lemma NothingEffective(st: StoreState)
    requires KnowsPick(st)
    ensures "s" in st.snapshots && Effective(st, "s") == {}
  {
    PickFields(st);
    assert Base(st, "s") == {};
    assert Effective(st, "s") <= Base(st, "s");
  }

  lemma PickReads(w: World, candidate: Id, s: Reads)
    requires w.records == map[] && w.vocabulary == PickVocabulary() && w.properties == PickSnapshot().properties
    ensures var bindings := map["candidate" := candidate, "request" := "ask"];
            Rules.Evaluate(w, bindings, SubsetOf("candidate").left, s)
            == Yields(Unsettled, None, s.(missing := s.missing + [MissingRead("candidate", candidate, "p", "1")]))
  {
    assert Matches(w, candidate, "p", "1") == {};
  }

  lemma PickEvaluates(w: World, candidate: Id)
    requires w.records == map[] && w.vocabulary == PickVocabulary() && w.properties == PickSnapshot().properties
    ensures Rules.Evaluate(w, map["candidate" := candidate, "request" := "ask"], SubsetOf("candidate"), Reads([], [], []))
         == Yields(Unsettled, None, Reads([], PickResult(candidate).missing, []))
  {
    PickReads(w, candidate, Reads([], [], []));
    PickReads(w, candidate, Reads([], [MissingRead("candidate", candidate, "p", "1")], []));
  }

  lemma PickBinds(candidate: Id)
    requires candidate in {"a", "b"}
    ensures BindingsFit(BindingsFor(PickScope(), candidate), PickBody().participants, PickSnapshot())
    ensures Ordered(BindingsFor(PickScope(), candidate), PickBody().participants) == PickResult(candidate).bindings
  {
    assert BindingsFor(PickScope(), candidate).Keys == {"candidate", "request"};
  }

  lemma PickGrounds(st: StoreState, candidate: Id)
    requires KnowsPick(st) && candidate in {"a", "b"}
    ensures Ground(st, "pick", BindingsFor(PickScope(), candidate), "s", "all", {}) == Ok(PickResult(candidate))
  {
    PickFields(st);
    PickBinds(candidate);
    PickEvaluates(WorldAt(st, PickSnapshot(), PickContext(), {}), candidate);
    assert Groundable(st, "pick", BindingsFor(PickScope(), candidate), "s", "all");
  }

  lemma PickEnvironment(st: StoreState)
    requires KnowsPick(st)
    ensures EnvironmentOk(st, PickScope())
  {
    PickFields(st);
  }

  lemma PickDiscovers(st: StoreState, candidate: Id)
    requires KnowsPick(st)
    ensures EnvironmentOk(st, PickScope())
    ensures Discover(st, PickScope(), candidate, {}) == PickObservation(candidate).evidence
  {
    PickFields(st);
    PickEnvironment(st);
    assert Realizing(st, PickScope(), "1", candidate, {}) == {};
    assert WithinScopes(st, {}, ["here"]) == {};
  }

  /** Each observation is the one that the evaluation itself makes. */
  lemma PickObserves(st: StoreState, candidate: Id)
    requires KnowsPick(st) && candidate in {"a", "b"}
    ensures EnvironmentOk(st, PickScope())
    ensures Observe(st, PickScope(), candidate, {}) == PickObservation(candidate)
  {
    PickDiscovers(st, candidate);
    PickGrounds(st, candidate);
  }

  lemma PickLive(st: StoreState, candidate: Id)
    requires KnowsPick(st) && candidate in {"a", "b"}
    ensures Live(st, PickScope(), PickObservation(candidate), {})
  {
    PickObserves(st, candidate);
    assert candidate in PickScope().candidates by {
      assert PickScope().candidates[0] == "a" && PickScope().candidates[1] == "b";
    }
    ObservedIsLive(st, PickScope(), candidate, {});
  }

  lemma PickListed()
    ensures Observed(PickRun().observations) == ["b", "a"] && DistinctNames(["b", "a"])
    ensures forall o :: o in PickRun().observations ==> o == PickObservation("a") || o == PickObservation("b")
  {
  }

  lemma AllLiveIsComplete(st: StoreState, scope: DecisionScope, g: DecisionGrounding, effective: set<Id>)
    requires EnvironmentOk(st, scope) && g.current && !g.interrupted && !g.pruned && DistinctNames(Observed(g.observations))
    requires forall o :: o in g.observations ==> Live(st, scope, o, effective) && o.failure.None?
    requires forall c :: c in scope.candidates ==> c in Observed(g.observations)
    ensures Completeness(st, scope, g, effective) == Some(CompleteForDeclaredScope)
  {
  }

  /** The recomputed status of the run is the stored one. */
  lemma DisorderedIsComplete(st: StoreState)
    requires KnowsPick(st)
    ensures Completeness(st, PickScope(), PickRun(), {}) == Some(CompleteForDeclaredScope)
  {
    PickListed();
    PickLive(st, "a");
    PickLive(st, "b");
    PickEnvironment(st);
    assert ["b", "a"][0] == "b" && ["b", "a"][1] == "a";
    AllLiveIsComplete(st, PickScope(), PickRun(), {});
  }

  lemma PickRunShape()
    ensures RunShape(PickRun())
  {
    PickListed();
    PickLive(PickKnowledge(), "a");
    PickLive(PickKnowledge(), "b");
  }

  // ---------------------------------------------------------------- opening the file

  lemma PickKnowledgeSound(st: StoreState)
    requires KnowsPick(st)
    ensures KnowledgeSound(st)
  {
    PickFields(st);
    assert st.descriptions == BeforeScopes(st).descriptions;
    assert SnapshotSound(st, "s");
  }

  lemma AdmittedIsSound(st: StoreState, r: Id, body: RuleBody)
    requires r in st.rules && st.rules[r].version != "" && AdmitRule(st.vocabulary, st.rules[r].version, body) == Ok(st.rules[r])
    ensures RuleSound(st, r)
  {
    assert ExtendsVocabulary(st.vocabulary, st.vocabulary);
  }

  lemma OneRuleOneContext(st: StoreState, rule: Rule, context: Context)
    requires st.rules == map["pick" := rule] && st.contexts == map["all" := context] && RuleSound(st, "pick")
    requires context.enabled == ["pick"] && context.scopes == ["here"]
    ensures DefinitionsSound(st)
  {
    assert ContextSound(st, "all");
  }

  lemma PickDefinitionsSound(st: StoreState)
    requires KnowsPick(st)
    ensures DefinitionsSound(st)
  {
    PickFields(st);
    PickAdmitted();
    AdmittedIsSound(st, "pick", PickBody());
    OneRuleOneContext(st, Pick(), PickContext());
  }

  lemma PickGraphsSound(st: StoreState)
    requires KnowsPick(st)
    ensures GraphsSound(st)
  {
    PickFields(st);
    assert forall x, y :: !Edge(ParentGraph(st.snapshots), x, y);
    assert DependencyGraph(st.derivations) == map[] && ReplacementGraph(st.supersessions) == map[];
  }

  lemma PickKnowledgeLoaded()
    ensures KnowledgeLoaded(PickRows(), PickStore())
  {
    var st := PickStore();
    PickFields(st);
    PickKnowledgeSound(st);
    PickDefinitionsSound(st);
    PickGraphsSound(st);
    assert RulePasses(Pick());
    LoadsItself(st, []);
  }

  lemma PickViews(st: StoreState)
    requires KnowsPick(st) && st.scopes == map["scope" := PickScope()]
    ensures ScopeView(st, "scope") == {}
  {
    NothingEffective(st);
  }

  lemma PickScopeRestored()
    ensures ScopesFrom(PickRows(), BeforeScopes(PickStore())) == map["scope" := PickScope()]
  {
    PickEnvironment(BeforeScopes(PickStore()));
    assert ScopeRowFits(BeforeScopes(PickStore()), "scope", PickScope());
  }

  /** The run passes its row test. */
  lemma DisorderedRunFits()
    ensures RunRowFits(BeforeRuns(PickStore()), "scope", PickRun(), ScopeView(BeforeRuns(PickStore()), "scope"))
  {
    PickRunShape();
    PickViews(BeforeRuns(PickStore()));
    DisorderedIsComplete(BeforeRuns(PickStore()));
  }

  lemma PickRunRestored()
    ensures RunsFrom(PickRows(), BeforeRuns(PickStore())) == map["scope" := PickRun()]
  {
    DisorderedRunFits();
    assert PickRows().groundings == map["scope" := PickRun()];
  }

  lemma NothingFurther(rows: Stored, st: StoreState, later: StoreState)
    requires rows.problems == map[] && rows.decisions == map[]
    ensures ProblemsFrom(rows, st) == map[] && DecisionsFrom(rows, later) == map[]
  {
  }

  lemma PickDecisionsLoaded()
    ensures DecisionsLoaded(PickRows(), PickStore())
  {
    PickScopeRestored();
    PickRunRestored();
    NothingFurther(PickRows(), BeforeProblems(PickStore()), BeforeDecisions(PickStore()));
  }

  lemma PickLoaded()
    ensures LoadedFrom(PickRows(), PickStore())
  {
    PickKnowledgeLoaded();
    PickDecisionsLoaded();
  }

  lemma OnlyPick(st: StoreState)
    requires LoadedFrom(PickRows(), st)
    ensures st == PickStore()
  {
    PickLoaded();
    LoadedUniquely(PickRows(), st, PickStore());
  }

  /** The file is opened to the state with the run, and to no other. */
  lemma DisorderedIsRestored(st: StoreState)
    ensures LoadedFrom(PickRows(), st) <==> st == PickStore()
  {
    if st == PickStore() {
      PickLoaded();
    } else if LoadedFrom(PickRows(), st) {
      OnlyPick(st);
    }
  }

  // ---------------------------------------------------------------- the problem over the run

  function PickProblem(): Problem
  {
    Problem("scope", "s", "all", "ask", "pick", "1",
            [Candidate("a", Unsettled, PickResult("a"), Some("excluded_by_context"), None),
             Candidate("b", Unsettled, PickResult("b"), Some("excluded_by_context"), None)])
  }

  lemma PickLookup()
    ensures ObservationFor(PickRun().observations, "a") == Some(PickObservation("a"))
    ensures ObservationFor(PickRun().observations, "b") == Some(PickObservation("b"))
  {
    var observations := PickRun().observations;
    assert observations[1..] == [PickObservation("a")] && observations[1..][1..] == [];
    assert ObservationFor(observations[1..], "a") == Some(PickObservation("a")) && ObservationFor(observations[1..], "b") == None;
  }

  lemma PickBuilt(view: Support)
    requires view.current
    ensures BuildCandidates(PickStore(), view, ["a", "b"], PickRun().observations) == Some(PickProblem().candidates)
  {
    PickLookup();
    BuiltEach(PickStore(), view, ["a", "b"], PickRun().observations, PickProblem().candidates);
  }

  lemma DisorderedIsBuilt()
    ensures BuildProblem(PickStore(), "scope", {}) == Some(PickProblem())
  {
    DisorderedIsComplete(PickStore());
    PickEnvironment(PickStore());
    PickBuilt(ViewOf(PickStore(), PickScope(), true, {}));
  }

  lemma PickNeverValid(p: Problem, effective: set<Id>)
    requires p.scope == "scope"
    ensures !ProblemOk(PickStore(), p, effective)
  {
    PickListed();
    assert ["b", "a"][0] != ["a", "b"][0];
    ValidExactlyAsBuilt(PickStore(), p, effective);
  }

  /** In the opened store the problem built from the run is admitted, and no problem over the run is valid. */
  lemma DisorderedIsNeverValid(st: StoreState, id: Id)
    requires LoadedFrom(PickRows(), st)
    ensures AddProblem(st, id, PickProblem()).Ok?
    ensures forall p: Problem, effective: set<Id> :: p.scope == "scope" ==> !ProblemOk(st, p, effective)
  {
    OnlyPick(st);
    PickViews(st);
    DisorderedIsBuilt();
    forall p: Problem, effective: set<Id> | p.scope == "scope" ensures !ProblemOk(st, p, effective) {
      PickNeverValid(p, effective);
    }
  }
}

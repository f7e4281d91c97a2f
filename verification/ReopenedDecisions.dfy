/** Which scopes, runs, problems and decisions are restored when a store with sound knowledge is reopened. */
module ReopenedDecisions {
  import Explanations
  import opened IsolationFrames
  import opened Lineage
  import opened LoadedStates
  import opened Model
  import opened Ordering
  import opened Problems
  import opened Reopening
  import opened ReopeningTheorems
  import Rules
  import opened Scopes
  import opened Selections
  import opened Statuses
  import opened StatusFrames
  import opened StoreFrames
  import opened StoreInvariants
  import opened StoreSteps
  import opened StoreTheorems
  import opened SupersessionRestore
  import opened Supersessions

  /** The two states differ in scopes, runs, problems and decisions only. */
  ghost predicate SameButDecisions(a: StoreState, b: StoreState)
  {
    BeforeScopes(a) == BeforeScopes(b)
  }

  lemma SameKnowledgeSound(a: StoreState, b: StoreState)
    requires SameButDecisions(a, b) && KnowledgeSound(a)
    ensures KnowledgeSound(b)
  {
    assert a.records == b.records && a.derivations == b.derivations && a.snapshots == b.snapshots && a.supersessions == b.supersessions;
    assert a.vocabulary == b.vocabulary && a.sources == b.sources && a.descriptions == b.descriptions;
    assert a.rules == b.rules && a.contexts == b.contexts && Rows(a) == Rows(b);
    forall x | x in b.records ensures RecordSound(b, x) {
      assert RecordSound(a, x);
    }
    forall s | s in b.snapshots ensures SnapshotSound(b, s) {
      assert SnapshotSound(a, s);
    }
    forall d | d in b.derivations ensures ProofSound(b, d) {
      assert ProofSound(a, d);
    }
    forall r | r in b.supersessions ensures ReplacementSound(b, r) {
      assert ReplacementSound(a, r);
    }
  }

  lemma NothingIsolated(st: StoreState, claims: seq<Claim>, reopened: StoreState)
    requires Sound(st) && RowsPass(st) && RowsOfEdges(st.supersessions, claims)
    requires KnowledgeLoaded(RowsOf(st, claims), reopened) && SameKnowledge(reopened, st)
    ensures reopened.isolated == {}
  {
    RecordRowsKept(st, claims);
    AllFitting(st, claims);
    AllPublished(RowsOf(st, claims), reopened);
  }

  /** Without isolated rows a reopened state differs from the closed one in decisions only. */
  lemma KnowledgeReopened(st: StoreState, claims: seq<Claim>, reopened: StoreState)
    requires Sound(st) && Reopenable(st) && st.isolated == {} && RowsOfEdges(st.supersessions, claims)
    requires KnowledgeLoaded(RowsOf(st, claims), reopened)
    ensures SameButDecisions(reopened, st)
  {
    ReopenedExactly(st, claims, reopened);
    NothingIsolated(st, claims, reopened);
  }

  lemma ScopeStillFits(st: StoreState, lighter: StoreState, s: Id)
    requires s in st.scopes && ScopeSound(st, s) && lighter == BeforeScopes(st)
    ensures ScopeRowFits(lighter, s, st.scopes[s])
  {
  }

  lemma ScopesReopened(st: StoreState, claims: seq<Claim>, reopened: StoreState)
    requires Sound(st) && SameButDecisions(reopened, st) && DecisionsLoaded(RowsOf(st, claims), reopened)
    ensures reopened.scopes == st.scopes
  {
    forall s | s in st.scopes ensures ScopeRowFits(BeforeScopes(reopened), s, st.scopes[s]) {
      assert ScopeSound(st, s);
      ScopeStillFits(st, BeforeScopes(reopened), s);
    }
    KeptWhole(reopened.scopes, st.scopes);
  }

  lemma LighterExtends(lighter: StoreState, st: StoreState)
    requires SameButDecisions(lighter, st) && lighter.scopes == st.scopes && SubMap(lighter.groundings, st.groundings)
    requires lighter.problems == map[] && lighter.decisions == map[]
    ensures Extends(lighter, st)
  {
    assert lighter.records == BeforeScopes(st).records && lighter.derivations == BeforeScopes(st).derivations;
    assert lighter.isolated == BeforeScopes(st).isolated && lighter.supersessions == BeforeScopes(st).supersessions;
    assert lighter.snapshots == BeforeScopes(st).snapshots && lighter.vocabulary == BeforeScopes(st).vocabulary;
    assert lighter.rules == BeforeScopes(st).rules && lighter.contexts == BeforeScopes(st).contexts;
    assert lighter.sources == BeforeScopes(st).sources && lighter.descriptions == BeforeScopes(st).descriptions;
  }

  /** A run is restored exactly when its completeness, computed anew, is the one it was stored with. */
  lemma RunReopenedExactly(st: StoreState, claims: seq<Claim>, reopened: StoreState, s: Id)
    requires Sound(st) && SameButDecisions(reopened, st) && DecisionsLoaded(RowsOf(st, claims), reopened) && s in st.groundings
    ensures s in st.scopes
    ensures s in reopened.groundings <==> Completeness(st, st.scopes[s], st.groundings[s], ScopeView(st, s)) == Some(st.groundings[s].status)
  {
    ScopesReopened(st, claims, reopened);
    var lighter := BeforeRuns(reopened);
    LighterExtends(lighter, st);
    SameKnowledgeSound(st, lighter);
    assert GroundingSound(st, s);
    assert ScopeSound(st, s);
    ScopeViewFrame(lighter, st, s);
    CompletenessFrame(lighter, st, st.scopes[s], st.groundings[s], ScopeView(st, s));
  }

  lemma ValidShape(st: StoreState, p: Problem, effective: set<Id>)
    requires ProblemOk(st, p, effective) && RunShape(st.groundings[p.scope])
    ensures ProblemShape(p)
  {
    var scope, g := st.scopes[p.scope], st.groundings[p.scope];
    forall c | c in p.candidates ensures c.truth == c.result.truth && (c.objective.Some? ==> c.truth.True?) {
      var i :| 0 <= i < |p.candidates| && p.candidates[i] == c;
      assert g.observations[i] in g.observations && ObservationShape(g.observations[i]);
      assert CandidateOk(st, ViewOf(st, scope, g.current, effective), c, g.observations[i]);
    }
  }

  lemma LighterViews(lighter: StoreState, st: StoreState, id: Id)
    requires KnowledgeSound(st) && Extends(lighter, st) && SameButDecisions(lighter, st)
    requires id in lighter.scopes && lighter.scopes[id].snapshot in lighter.snapshots
    ensures ScopeView(lighter, id) == ScopeView(st, id) && ScopeView(st, id) <= lighter.records.Keys
  {
    SameKnowledgeSound(st, lighter);
    ScopeViewFrame(lighter, st, id);
  }

  lemma LighterJudges(lighter: StoreState, st: StoreState, p: Problem)
    requires KnowledgeSound(st) && Extends(lighter, st) && SameButDecisions(lighter, st) && Filed(lighter, p)
    ensures ScopeView(lighter, p.scope) == ScopeView(st, p.scope)
    ensures ProblemOk(lighter, p, ScopeView(st, p.scope)) <==> ProblemOk(st, p, ScopeView(st, p.scope))
  {
    LighterViews(lighter, st, p.scope);
    ProblemFrame(lighter, st, p, ScopeView(st, p.scope));
  }

  lemma LighterFiled(lighter: StoreState, st: StoreState, p: Problem)
    requires DecisionsSound(st) && SameButDecisions(lighter, st) && lighter.scopes == st.scopes
    requires SubMap(lighter.groundings, st.groundings) && p.scope in lighter.groundings
    ensures Filed(lighter, p)
  {
    assert GroundingSound(st, p.scope);
    assert ScopeSound(st, p.scope);
    assert lighter.snapshots == BeforeScopes(st).snapshots && lighter.contexts == BeforeScopes(st).contexts;
    assert lighter.rules == BeforeScopes(st).rules;
  }

  lemma ProblemFitsExactly(lighter: StoreState, st: StoreState, p: Problem)
    requires Sound(st) && SameButDecisions(lighter, st) && lighter.scopes == st.scopes && SubMap(lighter.groundings, st.groundings)
    requires lighter.problems == map[] && lighter.decisions == map[] && p.scope in lighter.groundings
    ensures ProblemRowFits(lighter, p, ScopeView(lighter, p.scope)) <==> ProblemOk(st, p, ScopeView(st, p.scope))
  {
    LighterExtends(lighter, st);
    LighterFiled(lighter, st, p);
    LighterJudges(lighter, st, p);
    if ProblemOk(st, p, ScopeView(st, p.scope)) {
      assert GroundingSound(st, p.scope);
      ValidShape(st, p, ScopeView(st, p.scope));
    }
  }

  lemma ValidIsRestorable(st: StoreState, p: Problem)
    requires ProblemOk(st, p, ScopeView(st, p.scope))
    ensures Completeness(st, st.scopes[p.scope], st.groundings[p.scope], ScopeView(st, p.scope)) == Some(st.groundings[p.scope].status)
  {
  }

  /** A problem is restored exactly when it still passes its validator. */
  lemma ProblemReopenedExactly(st: StoreState, claims: seq<Claim>, reopened: StoreState, id: Id)
    requires Sound(st) && SameButDecisions(reopened, st) && DecisionsLoaded(RowsOf(st, claims), reopened) && id in st.problems
    ensures id in reopened.problems <==> ProblemOk(st, st.problems[id], ScopeView(st, st.problems[id].scope))
  {
    var p := st.problems[id];
    ScopesReopened(st, claims, reopened);
    assert ProblemSound(st, id);
    RunReopenedExactly(st, claims, reopened, p.scope);
    if p.scope in reopened.groundings {
      ProblemFitsExactly(BeforeProblems(reopened), st, p);
    } else if ProblemOk(st, p, ScopeView(st, p.scope)) {
      ValidIsRestorable(st, p);
    }
  }

  lemma ClearDecisionReopened(st: StoreState, claims: seq<Claim>, reopened: StoreState, d: Id)
    requires Sound(st) && Reopenable(st) && st.isolated == {} && RowsOfEdges(st.supersessions, claims)
    requires LoadedFrom(RowsOf(st, claims), reopened) && d in st.decisions
    ensures d in reopened.decisions <==> Explanations.Explainable(st, d)
  {
    KnowledgeReopened(st, claims, reopened);
    FiledDecision(st, d);
    assert DecisionSound(st, d);
    var source := st.decisions[d].source;
    ProblemReopenedExactly(st, claims, reopened, source);
    ReachableIsExplainable(st, d);
    if source in reopened.problems {
      assert ProblemOk(BeforeProblems(reopened), st.problems[source], ScopeView(BeforeProblems(reopened), st.problems[source].scope));
      assert st.problems[source].scope in reopened.groundings;
      assert GroundingSound(st, st.problems[source].scope);
    }
  }

  lemma DecisionsStayInOrder(st: StoreState, claims: seq<Claim>, reopened: StoreState)
    requires DecisionsSound(st) && reopened.scopes == st.scopes && SubMap(reopened.groundings, st.groundings)
    ensures RunsInOrder(reopened)
  {
    forall s | s in reopened.scopes ensures reopened.scopes[s].current {
      assert ScopeSound(st, s);
    }
    forall s | s in reopened.groundings
      ensures reopened.groundings[s].current && (s in reopened.scopes ==> Observed(reopened.groundings[s].observations) == reopened.scopes[s].candidates)
    {
      assert GroundingSound(st, s);
    }
  }

  lemma KnowledgeStaysInOrder(rows: Stored, st: StoreState, reopened: StoreState)
    requires Sound(st) && SameButDecisions(reopened, st) && KnowledgeLoaded(rows, reopened) && RunsInOrder(reopened)
    ensures InOrder(reopened)
  {
    SameKnowledgeSound(st, reopened);
    assert reopened.rules == BeforeScopes(st).rules && reopened.vocabulary == BeforeScopes(st).vocabulary;
    assert reopened.snapshots == BeforeScopes(st).snapshots && reopened.supersessions == BeforeScopes(st).supersessions;
    forall r | r in reopened.rules ensures reopened.rules[r].supported == Rules.Supported(reopened.rules[r].body.condition) {
      assert RuleSound(st, r);
      MarkIsComputed(st, r);
    }
    forall s | s in reopened.snapshots ensures SnapshotSound(reopened, s) {
    }
    forall r | r in reopened.supersessions ensures Wellplaced(reopened, reopened.supersessions[r]) {
      assert ReplacementSound(reopened, r);
    }
  }

  lemma ClearReopenedIsSound(st: StoreState, claims: seq<Claim>, reopened: StoreState)
    requires Sound(st) && Reopenable(st) && st.isolated == {} && RowsOfEdges(st.supersessions, claims)
    requires LoadedFrom(RowsOf(st, claims), reopened)
    ensures Sound(reopened)
  {
    KnowledgeReopened(st, claims, reopened);
    ScopesReopened(st, claims, reopened);
    DecisionsStayInOrder(st, claims, reopened);
    KnowledgeStaysInOrder(RowsOf(st, claims), st, reopened);
    LoadedSoundExactly(RowsOf(st, claims), reopened);
  }

  // ---------------------------------------------------------------- states with isolated rows

  lemma SameRows(st: StoreState, claims: seq<Claim>)
    ensures RowsOf(Cleared(st), claims) == RowsOf(st, claims)
    ensures Reopenable(Cleared(st)) <==> Reopenable(st)
  {
  }

  /** A decision is restored exactly when its problem is, hence exactly when it can still be explained. */
  lemma DecisionReopenedExactly(st: StoreState, claims: seq<Claim>, reopened: StoreState, d: Id)
    requires Sound(st) && Reopenable(st) && RowsOfEdges(st.supersessions, claims)
    requires LoadedFrom(RowsOf(st, claims), reopened) && d in st.decisions
    ensures d in reopened.decisions <==> Explanations.Explainable(st, d)
  {
    ClearedSound(st);
    SameRows(st, claims);
    ClearDecisionReopened(Cleared(st), claims, reopened, d);
    SoundIsUnhidden(st);
    FiledDecision(st, d);
    ClearedExplainable(st, d);
  }

  /** Reopening a sound state that is reopenable gives a sound state again. */
  lemma ReopenedIsSound(st: StoreState, claims: seq<Claim>, reopened: StoreState)
    requires Sound(st) && Reopenable(st) && RowsOfEdges(st.supersessions, claims)
    requires LoadedFrom(RowsOf(st, claims), reopened)
    ensures Sound(reopened) && reopened.scopes == st.scopes
  {
    ClearedSound(st);
    SameRows(st, claims);
    ClearReopenedIsSound(Cleared(st), claims, reopened);
    KnowledgeReopened(Cleared(st), claims, reopened);
    ScopesReopened(Cleared(st), claims, reopened);
  }

  /** If all its rows pass and no proof is borrowed, opening the rows that a sound store has published gives a
      sound store of the same knowledge and scopes, with exactly those decisions that can be explained. */
  lemma SoundReopens(st: StoreState, claims: seq<Claim>, reopened: StoreState)
    requires Sound(st) && Reopenable(st) && RowsOfEdges(st.supersessions, claims) && LoadedFrom(RowsOf(st, claims), reopened)
    ensures Sound(reopened) && SameKnowledge(reopened, st) && reopened.scopes == st.scopes
    ensures forall d :: d in st.decisions ==> (d in reopened.decisions <==> Explanations.Explainable(st, d))
  {
    ReopenedExactly(st, claims, reopened);
    ReopenedIsSound(st, claims, reopened);
    forall d | d in st.decisions ensures d in reopened.decisions <==> Explanations.Explainable(st, d) {
      DecisionReopenedExactly(st, claims, reopened, d);
    }
  }

  /** In particular whatever was done to an empty store. */
  lemma ReachableReopens(steps: seq<Step>, claims: seq<Claim>, reopened: StoreState)
    requires var st := Run(EmptyStore(), steps);
             Reopenable(st) && RowsOfEdges(st.supersessions, claims) && LoadedFrom(RowsOf(st, claims), reopened)
    ensures var st := Run(EmptyStore(), steps);
            && Sound(reopened) && SameKnowledge(reopened, st) && reopened.scopes == st.scopes
            && forall d :: d in st.decisions ==> (d in reopened.decisions <==> Explanations.Explainable(st, d))
  {
    ReachableSound(steps);
    SoundReopens(Run(EmptyStore(), steps), claims, reopened);
  }
}

/**
 * Opening a store file: the test each decoded row must pass, the passes over definitions, and how they
 * feed the restoration of replacements, proofs and decisions (src/atlas/store.py, `_load` and `_restore`).
 */
module Reopening {
  import opened Lineage
  import opened Model
  import opened Ordering
  import opened Problems
  import opened RestoreClosure
  import opened Rules
  import opened Scopes
  import opened Selections
  import opened Statuses
  import opened StoreInvariants
  import opened StoreSteps
  import opened SupersessionRestore
  import opened Supersessions

  /** The decoded rows of a file. Rows of one kind are told apart by their identity; a replacement row has
      its own name. */
  datatype Stored = Stored(
    vocabulary: Vocabulary, descriptions: set<Id>, sources: set<Id>, rules: map<Id, Rule>, contexts: map<Id, Context>,
    records: map<Id, Record>, derivations: map<Id, Derivation>, snapshots: map<Id, Snapshot>, claims: seq<Claim>,
    scopes: map<Id, DecisionScope>, groundings: map<Id, DecisionGrounding>,
    problems: map<Id, Problem>, decisions: map<Id, Decision>)

  // ---------------------------------------------------------------- one row at a time

  /** Unlike admission, restore wants the participants of a rule to be distinct without exception. */
  predicate RuleRowFits(vocabulary: Vocabulary, rule: Rule)
  {
    && rule.version != "" && DistinctNames(rule.body.participants)
    && (forall name :: name in rule.body.participants ==> name != "")
    && rule.body.head.participants == rule.body.participants
    && (rule.body.head.predicateId, rule.body.head.version) in vocabulary.predicates
    && |rule.body.participants| == vocabulary.predicates[(rule.body.head.predicateId, rule.body.head.version)]
    && var found := CheckExpr(rule.body.participants, vocabulary, true, rule.body.condition);
    && found.Ok? && (found.value.None? || found.value == Some(Truthful))
  }

  predicate ContextRowFits(rules: map<Id, Rule>, context: Context)
  {
    "" !in context.scopes && forall r :: r in context.enabled ==> r in rules
  }

  predicate RecordRowFits(rows: Stored, x: Id, r: Record)
  {
    && r.id == x && Traceable(rows.sources, r.sources)
    && match r
       case Property(_, description, property, version, value, place, _, _) =>
         && description in rows.descriptions && place != ""
         && (property, version) in rows.vocabulary.properties && value.Kind() == rows.vocabulary.properties[(property, version)]
       case Relation(_, predicateId, version, participants, _, scope, _, _, derivation) =>
         && (predicateId, version) in rows.vocabulary.predicates
         && |participants| == rows.vocabulary.predicates[(predicateId, version)]
         && SeemsDistinct(participants) && (forall p :: p in participants ==> p in rows.descriptions)
         && (scope.One? || derivation.Some?)
  }

  predicate ProofRowFits(d: Id, proof: Derivation)
  {
    && proof.id == d && DistinctNames(Names(proof.bindings)) && DistinctNames(proof.dependencies)
    && forall b :: b in proof.bindings ==> b.0 != ""
  }

  /** The first tests on a snapshot row; a row that passes them has a say about definitions. */
  predicate SnapshotRowFits(rows: Stored, records: map<Id, Record>, s: Id, snapshot: Snapshot)
  {
    && snapshot.id == s && snapshot.descriptions <= rows.descriptions
    && DistinctNames(snapshot.records) && (forall x :: x in snapshot.records ==> x in records)
    && (forall name :: name in snapshot.predicates ==> (name, snapshot.predicates[name]) in rows.vocabulary.predicates)
    && forall name :: name in snapshot.properties ==> (name, snapshot.properties[name]) in rows.vocabulary.properties
  }

  predicate RulesActive(rules: map<Id, Rule>, snapshot: Snapshot)
  {
    forall r :: r in snapshot.rules ==> r in rules && rules[r] == snapshot.rules[r]
  }

  predicate ContextsActive(contexts: map<Id, Context>, snapshot: Snapshot)
  {
    forall c :: c in snapshot.contexts ==> c in contexts && contexts[c] == snapshot.contexts[c]
  }

  /** The definitions that a snapshot fixes are still in force. */
  predicate DefinitionsActive(rules: map<Id, Rule>, contexts: map<Id, Context>, snapshot: Snapshot)
  {
    RulesActive(rules, snapshot) && ContextsActive(contexts, snapshot)
  }

  function RestoredRules(rows: Stored): map<Id, Rule>
  {
    map r | r in rows.rules && RuleRowFits(rows.vocabulary, rows.rules[r]) :: rows.rules[r]
  }

  function RestoredContexts(rows: Stored): map<Id, Context>
  {
    map c | c in rows.contexts && ContextRowFits(RestoredRules(rows), rows.contexts[c]) :: rows.contexts[c]
  }

  function RestoredRecords(rows: Stored): map<Id, Record>
  {
    map x | x in rows.records && RecordRowFits(rows, x, rows.records[x]) :: rows.records[x]
  }

  function RestoredProofs(rows: Stored): map<Id, Derivation>
  {
    map d | d in rows.derivations && ProofRowFits(d, rows.derivations[d]) :: rows.derivations[d]
  }

  function Claimants(rows: Stored): map<Id, Snapshot>
  {
    map s | s in rows.snapshots && SnapshotRowFits(rows, RestoredRecords(rows), s, rows.snapshots[s]) :: rows.snapshots[s]
  }

  function RestoredSnapshots(rows: Stored): map<Id, Snapshot>
  {
    var claimants := Claimants(rows);
    map s | s in claimants && DefinitionsActive(RestoredRules(rows), RestoredContexts(rows), claimants[s]) :: claimants[s]
  }

  /** The state against which replacement rows are tested. */
  function Decoded(rows: Stored): StoreState
  {
    EmptyStore().(vocabulary := rows.vocabulary, descriptions := rows.descriptions, sources := rows.sources,
                  records := RestoredRecords(rows), snapshots := RestoredSnapshots(rows))
  }

  function Fitting(st: StoreState, claims: seq<Claim>): seq<Claim>
  {
    if claims == [] then []
    else (if Wellplaced(st, claims[0].edge) then [claims[0]] else []) + Fitting(st, claims[1..])
  }

  // ---------------------------------------------------------------- definitions against snapshots

  /** A rule falls when snapshots claim it and none of them as it is. */
  predicate RuleUpheld(claimants: map<Id, Snapshot>, r: Id, rule: Rule)
  {
    (exists s :: s in claimants && r in claimants[s].rules)
    ==> exists s :: s in claimants && r in claimants[s].rules && claimants[s].rules[r] == rule
  }

  predicate ContextUpheld(claimants: map<Id, Snapshot>, c: Id, context: Context)
  {
    (exists s :: s in claimants && c in claimants[s].contexts)
    ==> exists s :: s in claimants && c in claimants[s].contexts && claimants[s].contexts[c] == context
  }

  function ActiveRules(rows: Stored): map<Id, Rule>
  {
    var rules, claimants := RestoredRules(rows), Claimants(rows);
    map r | r in rules && RuleUpheld(claimants, r, rules[r]) :: rules[r]
  }

  /** `_classify_unmatched_definition_claims`: a context also falls with a rule it enables. */
  function ActiveContexts(rows: Stored): map<Id, Context>
  {
    var contexts, claimants, rules := RestoredContexts(rows), Claimants(rows), ActiveRules(rows);
    map c | c in contexts && ContextUpheld(claimants, c, contexts[c]) && ContextRowFits(rules, contexts[c]) :: contexts[c]
  }

  /** Snapshots whose definitions are active and whose parents are among them. */
  predicate Standing(rules: map<Id, Rule>, contexts: map<Id, Context>, snapshots: map<Id, Snapshot>, kept: set<Id>)
  {
    && kept <= snapshots.Keys
    && forall s :: s in kept ==>
         DefinitionsActive(rules, contexts, snapshots[s]) && (snapshots[s].parent.Some? ==> snapshots[s].parent.value in kept)
  }

  ghost predicate GreatestStanding(rules: map<Id, Rule>, contexts: map<Id, Context>, snapshots: map<Id, Snapshot>, kept: set<Id>)
  {
    && Standing(rules, contexts, snapshots, kept)
    && forall k :: Standing(rules, contexts, snapshots, k) ==> k <= kept
  }

  /** `_validate_definition_closure`: round after round the broken snapshots are taken out. */
  method DefinitionClosure(rules: map<Id, Rule>, contexts: map<Id, Context>, snapshots: map<Id, Snapshot>) returns (kept: set<Id>)
    ensures GreatestStanding(rules, contexts, snapshots, kept)
  {
    kept := snapshots.Keys;
    while true
      invariant kept <= snapshots.Keys
      invariant forall k :: Standing(rules, contexts, snapshots, k) ==> k <= kept
      decreases |kept|
    {
      var broken := set s | s in kept && !(DefinitionsActive(rules, contexts, snapshots[s])
                                           && (snapshots[s].parent.Some? ==> snapshots[s].parent.value in kept));
      if broken == {} {
        assert forall s :: s in kept ==> s !in broken;
        return;
      }
      Shrinks(kept, broken);
      kept := kept - broken;
    }
  }

  lemma Shrinks(kept: set<Id>, broken: set<Id>)
    requires broken <= kept && broken != {}
    ensures |kept - broken| < |kept|
  {
    assert kept == (kept - broken) + broken;
  }

  // ---------------------------------------------------------------- knowledge

  /** What the closure over proofs and snapshots starts from. */
  function CandidatesFrom(rows: Stored, kept: set<Id>): Candidates
  {
    var snapshots := RestoredSnapshots(rows);
    Candidates(RestoredRecords(rows), RestoredProofs(rows), map s | s in snapshots && s in kept :: snapshots[s], rows.sources)
  }

  function IsolatedProperties(rows: Stored): set<(RowKind, Id)>
  {
    var restored := RestoredRecords(rows);
    set x | x in rows.records && rows.records[x].Property? && x !in restored :: (PropertyRow, x)
  }

  function IsolatedRelations(rows: Stored, st: StoreState): set<(RowKind, Id)>
  {
    var restored := RestoredRecords(rows);
    set x | x in rows.records && x !in st.records && (x in restored || rows.records[x].Relation?) :: (RelationRow, x)
  }

  function IsolatedDefinitions(rows: Stored, st: StoreState): set<(RowKind, Id)>
  {
    (set r | r in rows.rules && r !in st.rules :: (RuleRow, r)) + set c | c in rows.contexts && c !in st.contexts :: (ContextRow, c)
  }

  function IsolatedStructure(rows: Stored, st: StoreState): set<(RowKind, Id)>
  {
    var fitting := Fitting(Decoded(rows), rows.claims);
    (set d | d in rows.derivations && d !in st.derivations :: (DerivationRow, d))
    + (set s | s in rows.snapshots && s !in st.snapshots :: (SnapshotRow, s))
    + (set c | c in rows.claims && !(c in fitting && c.edge.retired in st.supersessions) :: (SupersessionRow, c.row))
  }

  /** The rows that stay out: each is filed under its kind, except that a property which shares its identity
      with a rejected proof is filed as a relation. */
  function IsolatedRows(rows: Stored, st: StoreState): set<(RowKind, Id)>
  {
    IsolatedDefinitions(rows, st) + IsolatedProperties(rows) + IsolatedRelations(rows, st) + IsolatedStructure(rows, st)
  }

  /** The snapshots pass the definition closure, and what is left of them the closure over proofs. */
  ghost predicate ClosedFrom(rows: Stored, st: StoreState, kept: set<Id>, invalid: set<Id>, invalidSnapshots: set<Id>)
  {
    && GreatestStanding(st.rules, st.contexts, RestoredSnapshots(rows), kept)
    && RestoredFrom(CandidatesFrom(rows, kept), Restored(st.records, st.derivations, st.snapshots, invalid, invalidSnapshots))
  }

  /** The knowledge of the file as it is published on opening. */
  ghost predicate KnowledgeLoaded(rows: Stored, st: StoreState)
  {
    && st.vocabulary == rows.vocabulary && st.descriptions == rows.descriptions && st.sources == rows.sources
    && st.rules == ActiveRules(rows) && st.contexts == ActiveContexts(rows)
    && st.supersessions == Published(Fitting(Decoded(rows), rows.claims))
    && st.isolated == IsolatedRows(rows, st)
    && exists kept, invalid, invalidSnapshots :: ClosedFrom(rows, st, kept, invalid, invalidSnapshots)
  }

  // ---------------------------------------------------------------- decisions

  predicate ScopeRowFits(st: StoreState, s: Id, scope: DecisionScope)
  {
    scope.id == s && ManifestOk(scope) && EnvironmentOk(st, scope)
  }

  predicate RunRowFits(st: StoreState, s: Id, g: DecisionGrounding, effective: set<Id>)
  {
    g.scope == s && RunShape(g) && s in st.scopes && Completeness(st, st.scopes[s], g, effective) == Some(g.status)
  }

  /** What decoding a problem demands of its candidates. */
  predicate ProblemShape(p: Problem)
  {
    && DistinctNames(CandidateIds(p.candidates))
    && forall c :: c in p.candidates ==> c.truth == c.result.truth && (c.objective.Some? ==> c.truth.True?)
  }

  predicate ProblemRowFits(st: StoreState, p: Problem, effective: set<Id>)
  {
    ProblemShape(p) && ProblemOk(st, p, effective)
  }

  predicate DecisionRowFits(st: StoreState, id: Id, d: Decision)
  {
    && d.id == id && SelectionShape(OutcomeOf(d))
    && d.source in st.problems && DecisionOk(st.problems[d.source].candidates, IsCurrent(st, st.problems[d.source]), d)
  }

  function BeforeScopes(st: StoreState): StoreState
  {
    st.(scopes := map[], groundings := map[], problems := map[], decisions := map[])
  }

  function BeforeRuns(st: StoreState): StoreState
  {
    st.(groundings := map[], problems := map[], decisions := map[])
  }

  function BeforeProblems(st: StoreState): StoreState
  {
    st.(problems := map[], decisions := map[])
  }

  function BeforeDecisions(st: StoreState): StoreState
  {
    st.(decisions := map[])
  }

  function ScopesFrom(rows: Stored, st: StoreState): map<Id, DecisionScope>
  {
    map s | s in rows.scopes && ScopeRowFits(st, s, rows.scopes[s]) :: rows.scopes[s]
  }

  /** The effective records at the snapshots of these scopes. */
  ghost function ViewsOf(st: StoreState, ids: set<Id>): map<Id, set<Id>>
  {
    map s | s in ids :: ScopeView(st, s)
  }

  function RunsUnder(rows: Stored, st: StoreState, views: map<Id, set<Id>>): map<Id, DecisionGrounding>
    requires rows.groundings.Keys <= views.Keys
  {
    map s | s in rows.groundings && RunRowFits(st, s, rows.groundings[s], views[s]) :: rows.groundings[s]
  }

  ghost function RunsFrom(rows: Stored, st: StoreState): map<Id, DecisionGrounding>
  {
    RunsUnder(rows, st, ViewsOf(st, rows.groundings.Keys))
  }

  function ProblemScopes(rows: Stored): set<Id>
  {
    set p | p in rows.problems :: rows.problems[p].scope
  }

  function ProblemsUnder(rows: Stored, st: StoreState, views: map<Id, set<Id>>): map<Id, Problem>
    requires ProblemScopes(rows) <= views.Keys
  {
    map p | p in rows.problems && ProblemRowFits(st, rows.problems[p], views[rows.problems[p].scope]) :: rows.problems[p]
  }

  ghost function ProblemsFrom(rows: Stored, st: StoreState): map<Id, Problem>
  {
    ProblemsUnder(rows, st, ViewsOf(st, ProblemScopes(rows)))
  }

  function DecisionsFrom(rows: Stored, st: StoreState): map<Id, Decision>
  {
    map d | d in rows.decisions && DecisionRowFits(st, d, rows.decisions[d]) :: rows.decisions[d]
  }

  /** Scopes, runs, problems and decisions are restored in this order, each against what came before. */
  ghost predicate DecisionsLoaded(rows: Stored, st: StoreState)
  {
    && st.scopes == ScopesFrom(rows, BeforeScopes(st))
    && st.groundings == RunsFrom(rows, BeforeRuns(st))
    && st.problems == ProblemsFrom(rows, BeforeProblems(st))
    && st.decisions == DecisionsFrom(rows, BeforeDecisions(st))
  }

  ghost predicate LoadedFrom(rows: Stored, st: StoreState)
  {
    KnowledgeLoaded(rows, st) && DecisionsLoaded(rows, st)
  }

  // ---------------------------------------------------------------- the whole opening

  /** What the parts make, put together. */
  function Assembled(rows: Stored, edges: map<Id, Supersession>, r: Restored): StoreState
  {
    EmptyStore().(vocabulary := rows.vocabulary, descriptions := rows.descriptions, sources := rows.sources,
                  rules := ActiveRules(rows), contexts := ActiveContexts(rows), records := r.records, derivations := r.derivations,
                  snapshots := r.snapshots, supersessions := edges)
  }

  lemma AssembledIsLoaded(rows: Stored, edges: map<Id, Supersession>, kept: set<Id>, r: Restored)
    requires edges == Published(Fitting(Decoded(rows), rows.claims))
    requires GreatestStanding(ActiveRules(rows), ActiveContexts(rows), RestoredSnapshots(rows), kept)
    requires RestoredFrom(CandidatesFrom(rows, kept), r)
    ensures var st := Assembled(rows, edges, r); KnowledgeLoaded(rows, st.(isolated := IsolatedRows(rows, st)))
  {
    var st := Assembled(rows, edges, r);
    var full := st.(isolated := IsolatedRows(rows, st));
    assert r == Restored(full.records, full.derivations, full.snapshots, r.invalid, r.invalidSnapshots);
    assert ClosedFrom(rows, full, kept, r.invalid, r.invalidSnapshots);
    assert IsolatedRows(rows, full) == IsolatedRows(rows, st);
  }

  method LoadKnowledge(rows: Stored) returns (st: StoreState)
    ensures KnowledgeLoaded(rows, st) && st == BeforeScopes(st) && ParentsPresent(st.snapshots)
  {
    var decoded := Decoded(rows);
    var edges, conflicting := ValidateSupersessions(Fitting(decoded, rows.claims));
    var kept := DefinitionClosure(ActiveRules(rows), ActiveContexts(rows), decoded.snapshots);
    var candidates := CandidatesFrom(rows, kept);
    var r := ValidateDerivationPairs(candidates);
    PublishedSound(candidates, r);
    st := Assembled(rows, edges, r);
    AssembledIsLoaded(rows, edges, kept, r);
    st := st.(isolated := IsolatedRows(rows, st));
  }

  /** The effective records at the snapshots of the scopes that rows refer to. */
  method ScopeViews(st: StoreState, ids: set<Id>) returns (views: map<Id, set<Id>>)
    requires ParentsPresent(st.snapshots)
    ensures views == ViewsOf(st, ids)
  {
    views := map[];
    var pending := ids;
    while pending != {}
      invariant pending <= ids && views.Keys == ids - pending
      invariant forall s :: s in views ==> views[s] == ScopeView(st, s)
      decreases |pending|
    {
      var s := Least(pending);
      var effective := {};
      if s in st.scopes && st.scopes[s].snapshot in st.snapshots {
        effective := EffectiveSet(st, st.scopes[s].snapshot);
      }
      views := views[s := effective];
      pending := pending - {s};
    }
  }

  method LoadRuns(rows: Stored, st: StoreState) returns (runs: map<Id, DecisionGrounding>)
    requires ParentsPresent(st.snapshots)
    ensures runs == RunsFrom(rows, st)
  {
    var views := ScopeViews(st, rows.groundings.Keys);
    runs := RunsUnder(rows, st, views);
  }

  method LoadProblems(rows: Stored, st: StoreState) returns (problems: map<Id, Problem>)
    requires ParentsPresent(st.snapshots)
    ensures problems == ProblemsFrom(rows, st)
  {
    var views := ScopeViews(st, ProblemScopes(rows));
    problems := ProblemsUnder(rows, st, views);
  }

  /** `_load`: knowledge first, then the decisions made upon it. */
  method Load(rows: Stored) returns (st: StoreState)
    ensures LoadedFrom(rows, st) && ParentsPresent(st.snapshots)
  {
    var knowledge := LoadKnowledge(rows);
    var withScopes := knowledge.(scopes := ScopesFrom(rows, knowledge));
    var runs := LoadRuns(rows, withScopes);
    var withRuns := withScopes.(groundings := runs);
    var problems := LoadProblems(rows, withRuns);
    var withProblems := withRuns.(problems := problems);
    st := withProblems.(decisions := DecisionsFrom(rows, withProblems));
    KnowledgeOnly(rows, knowledge, st);
    StagesLoaded(rows, knowledge, withScopes, withRuns, withProblems, st);
  }

  lemma StagesLoaded(rows: Stored, knowledge: StoreState, withScopes: StoreState, withRuns: StoreState, withProblems: StoreState,
                     st: StoreState)
    requires knowledge == BeforeScopes(knowledge)
    requires withScopes == knowledge.(scopes := ScopesFrom(rows, knowledge))
    requires withRuns == withScopes.(groundings := RunsFrom(rows, withScopes))
    requires withProblems == withRuns.(problems := ProblemsFrom(rows, withRuns))
    requires st == withProblems.(decisions := DecisionsFrom(rows, withProblems))
    ensures DecisionsLoaded(rows, st)
  {
    assert BeforeScopes(st) == knowledge;
    assert BeforeRuns(st) == withScopes;
    assert BeforeProblems(st) == withRuns;
    assert BeforeDecisions(st) == withProblems;
  }

  lemma KnowledgeOnly(rows: Stored, knowledge: StoreState, st: StoreState)
    requires KnowledgeLoaded(rows, knowledge) && BeforeScopes(st) == knowledge
    ensures KnowledgeLoaded(rows, st)
  {
    assert IsolatedRows(rows, st) == IsolatedRows(rows, knowledge);
    var kept, invalid, invalidSnapshots :| ClosedFrom(rows, knowledge, kept, invalid, invalidSnapshots);
    assert ClosedFrom(rows, st, kept, invalid, invalidSnapshots);
  }
}

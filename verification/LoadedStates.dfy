/** What opening guarantees of any file whatsoever, and what it takes for the opened store to be sound. */
module LoadedStates {
  import Explanations
  import opened Graph
  import opened Lineage
  import opened LineageTheorems
  import opened Model
  import opened Ordering
  import opened Problems
  import opened Reopening
  import opened RestoreClosure
  import opened Rules
  import opened RuleTheorems
  import opened Scopes
  import opened Selections
  import opened Statuses
  import opened StoreFrames
  import opened StoreInvariants
  import opened StoreSteps
  import opened SupersessionRestore
  import opened Supersessions

  // ---------------------------------------------------------------- records and proofs

  lemma CandidatesKeyed(rows: Stored, kept: set<Id>)
    ensures Keyed(CandidatesFrom(rows, kept))
  {
  }

  lemma OthersAreNoKnowledge(rows: Stored, st: StoreState, x: Id)
    ensures (PropertyRow, x) !in IsolatedDefinitions(rows, st) && (RelationRow, x) !in IsolatedDefinitions(rows, st)
    ensures (PropertyRow, x) !in IsolatedStructure(rows, st) && (RelationRow, x) !in IsolatedStructure(rows, st)
  {
  }

  lemma KnowledgeKinds(rows: Stored, st: StoreState, x: Id)
    ensures (RelationRow, x) !in IsolatedProperties(rows) && (PropertyRow, x) !in IsolatedRelations(rows, st)
    ensures x in RestoredRecords(rows) ==> (PropertyRow, x) !in IsolatedProperties(rows)
    ensures x in st.records ==> (RelationRow, x) !in IsolatedRelations(rows, st)
  {
  }

  lemma PublishedIsNotIsolated(rows: Stored, st: StoreState, x: Id)
    requires x in st.records && x in RestoredRecords(rows) && st.isolated == IsolatedRows(rows, st)
    ensures KnowledgeFree(st, x)
  {
    OthersAreNoKnowledge(rows, st, x);
    KnowledgeKinds(rows, st, x);
  }

  lemma RecordFromRow(rows: Stored, st: StoreState, x: Id)
    requires x in st.records && RecordRowFits(rows, x, st.records[x]) && KnowledgeFree(st, x)
    requires st.vocabulary == rows.vocabulary && st.descriptions == rows.descriptions && st.sources == rows.sources
    ensures RecordSound(st, x)
  {
  }

  lemma RecordsLoaded(rows: Stored, st: StoreState, kept: set<Id>, invalid: set<Id>, invalidSnapshots: set<Id>)
    requires KnowledgeLoaded(rows, st) && ClosedFrom(rows, st, kept, invalid, invalidSnapshots)
    ensures forall x :: x in st.records ==> RecordSound(st, x)
  {
    forall x | x in st.records ensures RecordSound(st, x) {
      assert x in RestoredRecords(rows) && st.records[x] == RestoredRecords(rows)[x];
      PublishedIsNotIsolated(rows, st, x);
      RecordFromRow(rows, st, x);
    }
  }

  lemma ProofStillMatches(c: Candidates, later: Candidates, relation: Record)
    requires relation.Relation? && relation.derivation.Some? && ProofMatches(c, relation)
    requires var d := relation.derivation.value;
             && d in later.derivations && later.derivations[d] == c.derivations[d] && later.sources == c.sources
             && c.derivations[d].snapshot in later.snapshots
             && later.snapshots[c.derivations[d].snapshot] == c.snapshots[c.derivations[d].snapshot]
             && forall x :: x in c.derivations[d].dependencies ==> x in later.records && later.records[x] == c.records[x]
    ensures ProofMatches(later, relation)
  {
    var dependencies := c.derivations[relation.derivation.value].dependencies;
    assert SourcesOf(later.records, dependencies) == SourcesOf(c.records, dependencies);
  }

  lemma ProofsLoaded(rows: Stored, st: StoreState, kept: set<Id>, invalid: set<Id>, invalidSnapshots: set<Id>)
    requires KnowledgeLoaded(rows, st) && ClosedFrom(rows, st, kept, invalid, invalidSnapshots)
    ensures forall d :: d in st.derivations ==> ProofSound(st, d)
  {
    var c, r := CandidatesFrom(rows, kept), Restored(st.records, st.derivations, st.snapshots, invalid, invalidSnapshots);
    CandidatesKeyed(rows, kept);
    PublishedSound(c, r);
    forall d | d in st.derivations ensures ProofSound(st, d) {
      assert st.derivations[d] == RestoredProofs(rows)[d] && ProofRowFits(d, st.derivations[d]);
      ProofStillMatches(c, Rows(st), st.records[d]);
    }
  }

  // ---------------------------------------------------------------- graphs

  lemma {:induction false} KeyedPath(derivations: map<Id, Derivation>, x: Id, steps: seq<Id>, y: Id)
    requires Path(DependencyGraph(derivations), x, steps, y) && y in derivations
    ensures Path(DerivationGraph(derivations), x, steps, y)
    decreases |steps|
  {
    if steps != [] {
      assert Reach(DependencyGraph(derivations), steps[0], y);
      ReachFromKey(DependencyGraph(derivations), steps[0], y);
      KeyedPath(derivations, steps[0], steps[1..], y);
    }
  }

  /** Facts are leaves, so a cycle of dependencies is a cycle of proofs. */
  lemma DependenciesAcyclic(derivations: map<Id, Derivation>)
    requires Acyclic(DerivationGraph(derivations))
    ensures Acyclic(DependencyGraph(derivations))
  {
    forall x ensures !OnCycle(DependencyGraph(derivations), x) {
      if OnCycle(DependencyGraph(derivations), x) {
        var y :| Edge(DependencyGraph(derivations), x, y) && Reach(DependencyGraph(derivations), y, x);
        var steps :| Path(DependencyGraph(derivations), y, steps, x);
        ReachFromKey(DependencyGraph(derivations), y, x);
        KeyedPath(derivations, y, steps, x);
        assert Edge(DerivationGraph(derivations), x, y);
        assert OnCycle(DerivationGraph(derivations), x);
      }
    }
  }

  lemma GraphsLoaded(rows: Stored, st: StoreState)
    requires KnowledgeLoaded(rows, st)
    ensures Acyclic(DependencyGraph(st.derivations)) && Acyclic(ReplacementGraph(st.supersessions))
    ensures forall r :: r in st.supersessions ==> st.supersessions[r].retired == r
  {
    var kept, invalid, invalidSnapshots :| ClosedFrom(rows, st, kept, invalid, invalidSnapshots);
    CandidatesKeyed(rows, kept);
    PublishedSound(CandidatesFrom(rows, kept), Restored(st.records, st.derivations, st.snapshots, invalid, invalidSnapshots));
    DependenciesAcyclic(st.derivations);
    PublishedSpec(Fitting(Decoded(rows), rows.claims));
    LinksOfReplacements(st.supersessions);
  }

  // ---------------------------------------------------------------- snapshots and definitions

  /** What opening guarantees of a snapshot; its place in the tree is not looked at. */
  ghost predicate SnapshotPublished(st: StoreState, s: Id)
    requires s in st.snapshots
  {
    && st.snapshots[s].id == s && RecordSet(st.snapshots[s]) <= st.records.Keys && DistinctNames(st.snapshots[s].records)
    && (st.snapshots[s].parent.Some? ==> st.snapshots[s].parent.value in st.snapshots)
    && SubMap(st.snapshots[s].rules, st.rules) && SubMap(st.snapshots[s].contexts, st.contexts)
    && st.snapshots[s].descriptions <= st.descriptions
    && (forall name :: name in st.snapshots[s].predicates ==> (name, st.snapshots[s].predicates[name]) in st.vocabulary.predicates)
    && forall name :: name in st.snapshots[s].properties ==> (name, st.snapshots[s].properties[name]) in st.vocabulary.properties
  }

  lemma SnapshotOrigin(rows: Stored, st: StoreState, kept: set<Id>, invalid: set<Id>, invalidSnapshots: set<Id>, s: Id)
    requires KnowledgeLoaded(rows, st) && ClosedFrom(rows, st, kept, invalid, invalidSnapshots) && s in st.snapshots
    ensures DefinitionsActive(st.rules, st.contexts, st.snapshots[s])
    ensures SnapshotRowFits(rows, RestoredRecords(rows), s, st.snapshots[s])
  {
    var c := CandidatesFrom(rows, kept);
    assert s in c.snapshots && st.snapshots[s] == c.snapshots[s];
    assert s in kept && s in Claimants(rows);
  }

  lemma SnapshotFromRow(rows: Stored, st: StoreState, s: Id)
    requires s in st.snapshots && DefinitionsActive(st.rules, st.contexts, st.snapshots[s])
    requires SnapshotRowFits(rows, RestoredRecords(rows), s, st.snapshots[s])
    requires st.vocabulary == rows.vocabulary && st.descriptions == rows.descriptions
    requires forall x :: x in st.snapshots[s].records ==> x in st.records
    requires st.snapshots[s].parent.Some? ==> st.snapshots[s].parent.value in st.snapshots
    ensures SnapshotPublished(st, s)
  {
  }

  lemma SnapshotsLoaded(rows: Stored, st: StoreState, kept: set<Id>, invalid: set<Id>, invalidSnapshots: set<Id>)
    requires KnowledgeLoaded(rows, st) && ClosedFrom(rows, st, kept, invalid, invalidSnapshots)
    ensures forall s :: s in st.snapshots ==> SnapshotPublished(st, s)
  {
    CandidatesKeyed(rows, kept);
    PublishedSound(CandidatesFrom(rows, kept), Restored(st.records, st.derivations, st.snapshots, invalid, invalidSnapshots));
    forall s | s in st.snapshots ensures SnapshotPublished(st, s) {
      SnapshotOrigin(rows, st, kept, invalid, invalidSnapshots, s);
      SnapshotFromRow(rows, st, s);
    }
  }

  lemma ContextsLoaded(rows: Stored, st: StoreState)
    requires KnowledgeLoaded(rows, st)
    ensures forall c :: c in st.contexts ==> ContextSound(st, c)
  {
  }

  lemma {:induction false} CheckedIsNormal(participants: seq<string>, vocabulary: Vocabulary, e: Expr)
    requires CheckExpr(participants, vocabulary, true, e).Ok?
    ensures Normalize(vocabulary, e) == Ok(e)
  {
    if e.Node? && IsSetOperator(e.op) {
      CheckedIsNormal(participants, vocabulary, e.left);
      CheckedIsNormal(participants, vocabulary, e.right);
    }
  }

  lemma AdmittedAnew(vocabulary: Vocabulary, rule: Rule)
    requires RuleRowFits(vocabulary, rule) && rule.supported == Rules.Supported(rule.body.condition)
    ensures AdmitRule(vocabulary, rule.version, rule.body) == Ok(rule)
  {
    CheckedIsNormal(rule.body.participants, vocabulary, rule.body.condition);
    SeemsDistinctExactly(rule.body.participants);
    assert rule.body.(condition := rule.body.condition) == rule.body;
  }

  lemma MarkIsComputed(st: StoreState, r: Id)
    requires r in st.rules && RuleSound(st, r)
    ensures st.rules[r].supported == Rules.Supported(st.rules[r].body.condition)
  {
  }

  /** A restored rule is one that admission makes exactly when its support mark is the computed one. */
  lemma RuleLoadedExactly(rows: Stored, st: StoreState, r: Id)
    requires KnowledgeLoaded(rows, st) && r in st.rules
    ensures RuleSound(st, r) <==> st.rules[r].supported == Rules.Supported(st.rules[r].body.condition)
  {
    var rule := st.rules[r];
    assert RuleRowFits(rows.vocabulary, rule);
    if RuleSound(st, r) {
      MarkIsComputed(st, r);
    } else if rule.supported == Rules.Supported(rule.body.condition) {
      AdmittedAnew(st.vocabulary, rule);
      assert ExtendsVocabulary(st.vocabulary, st.vocabulary);
    }
  }

  /** What every opened store satisfies, whatever was in the file: records and proofs are sound, proofs and
      replacements run in no circles, snapshots and contexts name only what is there, and no proof is borrowed. */
  ghost predicate Guaranteed(st: StoreState)
  {
    && (forall x :: x in st.records ==> RecordSound(st, x))
    && (forall d :: d in st.derivations ==> ProofSound(st, d))
    && (forall s :: s in st.snapshots ==> SnapshotPublished(st, s))
    && (forall c :: c in st.contexts ==> ContextSound(st, c))
    && (forall r :: r in st.supersessions ==> st.supersessions[r].retired == r)
    && Acyclic(DependencyGraph(st.derivations)) && Acyclic(ReplacementGraph(st.supersessions))
    && forall x :: x in st.records && st.records[x].Relation? && st.records[x].derivation.Some? ==>
         st.records[x].derivation == Some(x) && x in st.derivations
  }

  lemma LoadedGuarantees(rows: Stored, st: StoreState)
    requires KnowledgeLoaded(rows, st)
    ensures Guaranteed(st)
  {
    var kept, invalid, invalidSnapshots :| ClosedFrom(rows, st, kept, invalid, invalidSnapshots);
    RecordsLoaded(rows, st, kept, invalid, invalidSnapshots);
    ProofsLoaded(rows, st, kept, invalid, invalidSnapshots);
    SnapshotsLoaded(rows, st, kept, invalid, invalidSnapshots);
    ContextsLoaded(rows, st);
    GraphsLoaded(rows, st);
    CandidatesKeyed(rows, kept);
    PublishedSound(CandidatesFrom(rows, kept), Restored(st.records, st.derivations, st.snapshots, invalid, invalidSnapshots));
  }

  // ---------------------------------------------------------------- the rest of soundness

  /** What opening leaves to the file: replacements and snapshots in their place, computed support marks, and
      decisions of the current schema with runs in manifest order. */
  ghost predicate InOrder(st: StoreState)
  {
    && (forall r :: r in st.supersessions ==> Wellplaced(st, st.supersessions[r]))
    && Acyclic(ParentGraph(st.snapshots))
    && (forall s :: s in st.snapshots ==> Ascending(st.snapshots[s].records))
    && (forall s :: s in st.snapshots && st.snapshots[s].parent.Some? && st.snapshots[s].parent.value in st.snapshots ==>
          RecordSet(st.snapshots[st.snapshots[s].parent.value]) <= RecordSet(st.snapshots[s]))
    && (forall r :: r in st.rules ==> st.rules[r].supported == Rules.Supported(st.rules[r].body.condition))
    && RunsInOrder(st)
  }

  ghost predicate RunsInOrder(st: StoreState)
  {
    && (forall s :: s in st.scopes ==> st.scopes[s].current)
    && forall s :: s in st.groundings && s in st.scopes ==>
         st.groundings[s].current && Observed(st.groundings[s].observations) == st.scopes[s].candidates
  }

  lemma KnowledgeInOrder(rows: Stored, st: StoreState)
    requires KnowledgeLoaded(rows, st) && InOrder(st)
    ensures KnowledgeSound(st)
  {
    LoadedGuarantees(rows, st);
    forall s | s in st.snapshots ensures SnapshotSound(st, s) {
      assert SnapshotPublished(st, s);
    }
    forall r | r in st.supersessions ensures ReplacementSound(st, r) {
    }
  }

  lemma DefinitionsInOrder(rows: Stored, st: StoreState)
    requires KnowledgeLoaded(rows, st) && InOrder(st)
    ensures DefinitionsSound(st)
  {
    ContextsLoaded(rows, st);
    forall r | r in st.rules ensures RuleSound(st, r) {
      RuleLoadedExactly(rows, st, r);
    }
  }

  lemma ScopesInOrder(rows: Stored, st: StoreState)
    requires DecisionsLoaded(rows, st) && RunsInOrder(st)
    ensures forall s :: s in st.scopes ==> ScopeSound(st, s)
  {
    forall s | s in st.scopes ensures ScopeSound(st, s) {
      assert ScopeRowFits(BeforeScopes(st), s, st.scopes[s]);
    }
  }

  lemma GroundingsInOrder(rows: Stored, st: StoreState)
    requires DecisionsLoaded(rows, st) && RunsInOrder(st)
    ensures forall s :: s in st.groundings ==> GroundingSound(st, s)
  {
    forall s | s in st.groundings ensures GroundingSound(st, s) {
      assert RunRowFits(BeforeRuns(st), s, st.groundings[s], ScopeView(BeforeRuns(st), s));
    }
  }

  lemma ProblemsInOrder(rows: Stored, st: StoreState)
    requires DecisionsLoaded(rows, st) && RunsInOrder(st)
    ensures forall p :: p in st.problems ==> ProblemSound(st, p)
  {
    forall p | p in st.problems ensures ProblemSound(st, p) {
      var before, problem := BeforeProblems(st), st.problems[p];
      assert ProblemOk(before, problem, ScopeView(before, problem.scope));
      Explanations.ValidSelects(before, problem, ScopeView(before, problem.scope), p);
    }
  }

  lemma ChoicesInOrder(rows: Stored, st: StoreState)
    requires DecisionsLoaded(rows, st) && RunsInOrder(st)
    ensures forall d :: d in st.decisions ==> DecisionSound(st, d)
  {
    forall d | d in st.decisions ensures DecisionSound(st, d) {
      assert DecisionRowFits(BeforeDecisions(st), d, st.decisions[d]);
      var problem := st.problems[st.decisions[d].source];
      assert ProblemOk(BeforeProblems(st), problem, ScopeView(BeforeProblems(st), problem.scope));
    }
  }

  lemma DecisionsInOrder(rows: Stored, st: StoreState)
    requires DecisionsLoaded(rows, st) && RunsInOrder(st)
    ensures DecisionsSound(st)
  {
    ScopesInOrder(rows, st);
    GroundingsInOrder(rows, st);
    ProblemsInOrder(rows, st);
    ChoicesInOrder(rows, st);
  }

  lemma InOrderIsSound(rows: Stored, st: StoreState)
    requires KnowledgeLoaded(rows, st) && DecisionsSound(st) && InOrder(st)
    ensures Sound(st)
  {
    KnowledgeInOrder(rows, st);
    DefinitionsInOrder(rows, st);
    GraphsLoaded(rows, st);
  }

  lemma KnowledgeSoundIsInOrder(st: StoreState)
    requires KnowledgeSound(st)
    ensures forall r :: r in st.supersessions ==> Wellplaced(st, st.supersessions[r])
    ensures forall s :: s in st.snapshots ==>
              && Ascending(st.snapshots[s].records)
              && (st.snapshots[s].parent.Some? && st.snapshots[s].parent.value in st.snapshots ==>
                    RecordSet(st.snapshots[st.snapshots[s].parent.value]) <= RecordSet(st.snapshots[s]))
  {
    forall r | r in st.supersessions ensures Wellplaced(st, st.supersessions[r]) {
      assert ReplacementSound(st, r);
    }
    assert forall s :: s in st.snapshots ==> SnapshotSound(st, s);
  }

  lemma MarksAreComputed(st: StoreState)
    requires DefinitionsSound(st)
    ensures forall r :: r in st.rules ==> st.rules[r].supported == Rules.Supported(st.rules[r].body.condition)
  {
    forall r | r in st.rules ensures st.rules[r].supported == Rules.Supported(st.rules[r].body.condition) {
      MarkIsComputed(st, r);
    }
  }

  lemma DecisionsSoundAreInOrder(st: StoreState)
    requires DecisionsSound(st)
    ensures RunsInOrder(st)
  {
    assert forall s :: s in st.scopes ==> ScopeSound(st, s);
    assert forall s :: s in st.groundings ==> GroundingSound(st, s);
  }

  lemma SoundIsInOrder(st: StoreState)
    requires Sound(st)
    ensures InOrder(st)
  {
    KnowledgeSoundIsInOrder(st);
    MarksAreComputed(st);
    DecisionsSoundAreInOrder(st);
  }

  /**
   * The opened store is sound exactly when what opening leaves to the file is in order; everything else that
   * soundness says holds of every file.
   */
  lemma LoadedSoundExactly(rows: Stored, st: StoreState)
    requires LoadedFrom(rows, st)
    ensures Sound(st) <==> InOrder(st)
  {
    if Sound(st) {
      SoundIsInOrder(st);
    } else if InOrder(st) {
      DecisionsInOrder(rows, st);
      InOrderIsSound(rows, st);
    }
  }

  // ---------------------------------------------------------------- one file, one state

  lemma StandingUnique(rules: map<Id, Rule>, contexts: map<Id, Context>, snapshots: map<Id, Snapshot>, a: set<Id>, b: set<Id>)
    requires GreatestStanding(rules, contexts, snapshots, a) && GreatestStanding(rules, contexts, snapshots, b)
    ensures a == b
  {
  }

  lemma GreatestUnique(c: Candidates, k: set<Id>, s: set<Id>, l: set<Id>, t: set<Id>)
    requires GreatestConsistent(c, k, s) && GreatestConsistent(c, l, t)
    ensures k == l && s == t
  {
  }

  lemma RestoredUnique(c: Candidates, a: Restored, b: Restored)
    requires RestoredFrom(c, a) && RestoredFrom(c, b)
    ensures a.records == b.records && a.derivations == b.derivations && a.snapshots == b.snapshots
  {
    GreatestUnique(c, a.derivations.Keys, a.snapshots.Keys, b.derivations.Keys, b.snapshots.Keys);
    forall x ensures x in a.records <==> x in b.records {
      assert x in a.records ==> x in c.records;
      assert x in b.records ==> x in c.records;
    }
  }

  lemma ClosuresUnique(rows: Stored, a: StoreState, b: StoreState)
    requires KnowledgeLoaded(rows, a) && KnowledgeLoaded(rows, b)
    ensures a.records == b.records && a.derivations == b.derivations && a.snapshots == b.snapshots
  {
    var kept, invalid, invalidSnapshots :| ClosedFrom(rows, a, kept, invalid, invalidSnapshots);
    var kept', invalid', invalidSnapshots' :| ClosedFrom(rows, b, kept', invalid', invalidSnapshots');
    StandingUnique(a.rules, a.contexts, RestoredSnapshots(rows), kept, kept');
    RestoredUnique(CandidatesFrom(rows, kept), Restored(a.records, a.derivations, a.snapshots, invalid, invalidSnapshots),
                   Restored(b.records, b.derivations, b.snapshots, invalid', invalidSnapshots'));
  }

  lemma SameIsolated(rows: Stored, a: StoreState, b: StoreState)
    requires a.rules == b.rules && a.contexts == b.contexts && a.records == b.records && a.derivations == b.derivations
    requires a.snapshots == b.snapshots && a.supersessions == b.supersessions
    ensures IsolatedRows(rows, a) == IsolatedRows(rows, b)
  {
  }

  lemma KnowledgeUnique(rows: Stored, a: StoreState, b: StoreState)
    requires KnowledgeLoaded(rows, a) && KnowledgeLoaded(rows, b)
    ensures BeforeScopes(a) == BeforeScopes(b)
  {
    ClosuresUnique(rows, a, b);
    SameIsolated(rows, a, b);
  }

  lemma DecisionsUnique(rows: Stored, a: StoreState, b: StoreState)
    requires BeforeScopes(a) == BeforeScopes(b) && DecisionsLoaded(rows, a) && DecisionsLoaded(rows, b)
    ensures a == b
  {
    assert a.scopes == b.scopes;
    assert BeforeRuns(a) == BeforeScopes(a).(scopes := a.scopes) && BeforeRuns(b) == BeforeScopes(b).(scopes := b.scopes);
    assert a.groundings == b.groundings;
    assert BeforeProblems(a) == BeforeRuns(a).(groundings := a.groundings) && BeforeProblems(b) == BeforeRuns(b).(groundings := b.groundings);
    assert a.problems == b.problems;
    assert BeforeDecisions(a) == BeforeProblems(a).(problems := a.problems) && BeforeDecisions(b) == BeforeProblems(b).(problems := b.problems);
    assert a.decisions == b.decisions;
    assert a == BeforeDecisions(a).(decisions := a.decisions) && b == BeforeDecisions(b).(decisions := b.decisions);
  }

  /** Opening is a function of the file: in whatever order rows are met and sets are walked through, one state comes of
      it, its isolated rows included. */
  lemma LoadedUniquely(rows: Stored, a: StoreState, b: StoreState)
    requires LoadedFrom(rows, a) && LoadedFrom(rows, b)
    ensures a == b
  {
    KnowledgeUnique(rows, a, b);
    DecisionsUnique(rows, a, b);
  }
}

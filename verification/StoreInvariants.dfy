/** What every reachable state of the store satisfies. */
module StoreInvariants {
  import Explanations
  import opened Graph
  import opened Lineage
  import opened LineageTheorems
  import opened Model
  import opened Ordering
  import opened Problems
  import opened RestoreClosure
  import opened Rules
  import opened RuleTheorems
  import opened Scopes
  import opened Selections
  import opened Statuses
  import opened StoreFrames
  import opened StoreSteps
  import opened Supersessions

  // ---------------------------------------------------------------- one entry at a time

  /** A record is filed under its own identity and hidden by no isolated row, and everything it names is known
      to the store. The participants of a derived relation may be repeated. */
  ghost predicate RecordSound(st: StoreState, x: Id)
    requires x in st.records
  {
    && st.records[x].id == x && Traceable(st.sources, st.records[x].sources) && KnowledgeFree(st, x)
    && (st.records[x].Property? ==> FactSound(st, st.records[x]))
    && (st.records[x].Relation? ==> TermSound(st, st.records[x]))
  }

  ghost predicate FactSound(st: StoreState, r: Record)
    requires r.Property?
  {
    && r.description in st.descriptions && r.place != ""
    && (r.property, r.version) in st.vocabulary.properties
    && r.value.Kind() == st.vocabulary.properties[(r.property, r.version)]
  }

  ghost predicate TermSound(st: StoreState, r: Record)
    requires r.Relation?
  {
    && (r.predicateId, r.version) in st.vocabulary.predicates
    && |r.participants| == st.vocabulary.predicates[(r.predicateId, r.version)]
    && (forall p :: p in r.participants ==> p in st.descriptions)
    && (r.derivation.None? ==> r.scope.One? && SeemsDistinct(r.participants))
    && (r.scope.One? || r.derivation.Some?)
  }

  /** A snapshot holds admitted records, everything its parent holds, and definitions the store still has. */
  ghost predicate SnapshotSound(st: StoreState, s: Id)
    requires s in st.snapshots
  {
    && st.snapshots[s].id == s && RecordSet(st.snapshots[s]) <= st.records.Keys && Ascending(st.snapshots[s].records)
    && (st.snapshots[s].parent.Some? ==>
          && st.snapshots[s].parent.value in st.snapshots
          && RecordSet(st.snapshots[st.snapshots[s].parent.value]) <= RecordSet(st.snapshots[s]))
    && SubMap(st.snapshots[s].rules, st.rules) && SubMap(st.snapshots[s].contexts, st.contexts)
    && st.snapshots[s].descriptions <= st.descriptions
    && (forall name :: name in st.snapshots[s].predicates ==> (name, st.snapshots[s].predicates[name]) in st.vocabulary.predicates)
    && forall name :: name in st.snapshots[s].properties ==> (name, st.snapshots[s].properties[name]) in st.vocabulary.properties
  }

  function Rows(st: StoreState): Candidates
  {
    Candidates(st.records, st.derivations, st.snapshots, st.sources)
  }

  /** A proof is filed with the relation it proves and fits it. */
  ghost predicate ProofSound(st: StoreState, d: Id)
    requires d in st.derivations
  {
    && st.derivations[d].id == d && Paired(Rows(st), d) && ProofMatches(Rows(st), st.records[d])
    && DistinctNames(Names(st.derivations[d].bindings)) && DistinctNames(st.derivations[d].dependencies)
  }

  ghost predicate ReplacementSound(st: StoreState, r: Id)
    requires r in st.supersessions
  {
    st.supersessions[r].retired == r && Wellplaced(st, st.supersessions[r])
  }

  /** The rule was admitted under an earlier vocabulary. */
  ghost predicate RuleSound(st: StoreState, r: Id)
    requires r in st.rules
  {
    st.rules[r].version != "" && exists vocabulary, body ::
      ExtendsVocabulary(vocabulary, st.vocabulary) && AdmitRule(vocabulary, st.rules[r].version, body) == Ok(st.rules[r])
  }

  ghost predicate ContextSound(st: StoreState, c: Id)
    requires c in st.contexts
  {
    "" !in st.contexts[c].scopes && forall r :: r in st.contexts[c].enabled ==> r in st.rules
  }

  ghost predicate ScopeSound(st: StoreState, s: Id)
    requires s in st.scopes
  {
    st.scopes[s].id == s && st.scopes[s].current && ManifestOk(st.scopes[s]) && EnvironmentOk(st, st.scopes[s])
  }

  /** A run belongs to its scope, follows the current schema and lists its candidates in manifest order. */
  ghost predicate GroundingSound(st: StoreState, s: Id)
    requires s in st.groundings
  {
    && s in st.scopes && st.groundings[s].scope == s && st.groundings[s].current
    && Observed(st.groundings[s].observations) == st.scopes[s].candidates && RunShape(st.groundings[s])
  }

  ghost predicate ProblemSound(st: StoreState, p: Id)
    requires p in st.problems
  {
    && st.problems[p].scope in st.groundings
    && Distinct(st.problems[p].candidates) && SelectM1(p, st.problems[p], true).Some?
  }

  function OutcomeOf(d: Decision): Selection
  {
    Selection(d.source, d.status, d.optimum, d.coOptima)
  }

  /** Every stored decision passes the validator of stored decisions. */
  ghost predicate DecisionSound(st: StoreState, d: Id)
    requires d in st.decisions
  {
    && st.decisions[d].id == d && st.decisions[d].source in st.problems && SelectionShape(OutcomeOf(st.decisions[d]))
    && DecisionOk(st.problems[st.decisions[d].source].candidates, true, st.decisions[d])
  }

  // ---------------------------------------------------------------- whole states

  ghost predicate KnowledgeSound(st: StoreState)
  {
    && (forall x :: x in st.records ==> RecordSound(st, x))
    && (forall s :: s in st.snapshots ==> SnapshotSound(st, s))
    && (forall d :: d in st.derivations ==> ProofSound(st, d))
    && (forall r :: r in st.supersessions ==> ReplacementSound(st, r))
  }

  ghost predicate DefinitionsSound(st: StoreState)
  {
    && (forall r :: r in st.rules ==> RuleSound(st, r))
    && (forall c :: c in st.contexts ==> ContextSound(st, c))
  }

  ghost predicate DecisionsSound(st: StoreState)
  {
    && (forall s :: s in st.scopes ==> ScopeSound(st, s))
    && (forall s :: s in st.groundings ==> GroundingSound(st, s))
    && (forall p :: p in st.problems ==> ProblemSound(st, p))
    && (forall d :: d in st.decisions ==> DecisionSound(st, d))
  }

  /** The snapshot tree, the proofs and the replacements run in no circles. */
  ghost predicate GraphsSound(st: StoreState)
  {
    && Acyclic(ParentGraph(st.snapshots))
    && Acyclic(DependencyGraph(st.derivations))
    && Acyclic(ReplacementGraph(st.supersessions))
  }

  ghost predicate Sound(st: StoreState)
  {
    KnowledgeSound(st) && DefinitionsSound(st) && DecisionsSound(st) && GraphsSound(st)
  }

  // ---------------------------------------------------------------- growth keeps what was sound

  lemma ProofStays(st: StoreState, later: StoreState, d: Id)
    requires Extends(st, later) && d in st.derivations && ProofSound(st, d)
    ensures ProofSound(later, d)
  {
    SourcesFrame(st.records, later.records, st.derivations[d].dependencies);
  }

  lemma RuleStays(st: StoreState, later: StoreState, r: Id)
    requires Extends(st, later) && r in st.rules && RuleSound(st, r)
    ensures RuleSound(later, r)
  {
    var vocabulary, body :| ExtendsVocabulary(vocabulary, st.vocabulary) && AdmitRule(vocabulary, st.rules[r].version, body) == Ok(st.rules[r]);
    assert ExtendsVocabulary(vocabulary, later.vocabulary);
  }

  lemma SnapshotStays(st: StoreState, later: StoreState, s: Id)
    requires Extends(st, later) && s in st.snapshots && SnapshotSound(st, s)
    ensures SnapshotSound(later, s)
  {
  }

  ghost predicate NewKnowledge(st: StoreState, later: StoreState)
  {
    && (forall x :: x in later.records && x !in st.records ==> RecordSound(later, x))
    && (forall s :: s in later.snapshots && s !in st.snapshots ==> SnapshotSound(later, s))
    && (forall d :: d in later.derivations && d !in st.derivations ==> ProofSound(later, d))
  }

  ghost predicate NewDefinitions(st: StoreState, later: StoreState)
  {
    && (forall r :: r in later.rules && r !in st.rules ==> RuleSound(later, r))
    && (forall c :: c in later.contexts && c !in st.contexts ==> ContextSound(later, c))
  }

  ghost predicate NewDecisions(st: StoreState, later: StoreState)
  {
    && (forall s :: s in later.scopes && s !in st.scopes ==> ScopeSound(later, s))
    && (forall s :: s in later.groundings && s !in st.groundings ==> GroundingSound(later, s))
    && (forall p :: p in later.problems && p !in st.problems ==> ProblemSound(later, p))
    && (forall d :: d in later.decisions && d !in st.decisions ==> DecisionSound(later, d))
  }

  /** Sound old entries stay sound; it remains to look at the new ones. */
  lemma KnowledgeGrows(st: StoreState, later: StoreState)
    requires KnowledgeSound(st) && Extends(st, later) && NewKnowledge(st, later)
    ensures KnowledgeSound(later)
  {
    forall x | x in st.records ensures RecordSound(later, x) {
      assert RecordSound(st, x);
    }
    forall s | s in st.snapshots ensures SnapshotSound(later, s) {
      SnapshotStays(st, later, s);
    }
    forall d | d in st.derivations ensures ProofSound(later, d) {
      ProofStays(st, later, d);
    }
    forall r | r in later.supersessions ensures ReplacementSound(later, r) {
      assert ReplacementSound(st, r);
    }
  }

  lemma DefinitionsGrow(st: StoreState, later: StoreState)
    requires DefinitionsSound(st) && Extends(st, later) && NewDefinitions(st, later)
    ensures DefinitionsSound(later)
  {
    forall r | r in st.rules ensures RuleSound(later, r) {
      RuleStays(st, later, r);
    }
    forall c | c in st.contexts ensures ContextSound(later, c) {
      assert ContextSound(st, c);
    }
  }

  lemma DecisionsGrow(st: StoreState, later: StoreState)
    requires DecisionsSound(st) && Extends(st, later) && NewDecisions(st, later)
    ensures DecisionsSound(later)
  {
    forall s | s in st.scopes ensures ScopeSound(later, s) {
      assert ScopeSound(st, s);
    }
    forall s | s in st.groundings ensures GroundingSound(later, s) {
      assert GroundingSound(st, s);
    }
    forall p | p in st.problems ensures ProblemSound(later, p) {
      assert ProblemSound(st, p);
    }
    forall d | d in st.decisions ensures DecisionSound(later, d) {
      assert DecisionSound(st, d);
    }
  }

  lemma Grows(st: StoreState, later: StoreState)
    requires KnowledgeSound(st) && DefinitionsSound(st) && DecisionsSound(st) && Extends(st, later)
    requires NewKnowledge(st, later) && NewDefinitions(st, later) && NewDecisions(st, later)
    ensures KnowledgeSound(later) && DefinitionsSound(later) && DecisionsSound(later)
  {
    KnowledgeGrows(st, later);
    DefinitionsGrow(st, later);
    DecisionsGrow(st, later);
  }

  // ---------------------------------------------------------------- the steps

  lemma EmptySound()
    ensures Sound(EmptyStore())
  {
    var st := EmptyStore();
    assert ParentGraph(st.snapshots) == map[] && DependencyGraph(st.derivations) == map[] && ReplacementGraph(st.supersessions) == map[];
  }

  lemma ConfigureAddsNothing(st: StoreState, added: Vocabulary)
    requires Configured(st, added).Ok?
    ensures var later := Configured(st, added).value;
            Extends(st, later) && NewKnowledge(st, later) && NewDefinitions(st, later) && NewDecisions(st, later)
  {
  }

  lemma ConfigureKeeps(st: StoreState, added: Vocabulary)
    requires Sound(st) && Configured(st, added).Ok?
    ensures Sound(Configured(st, added).value)
  {
    ConfigureAddsNothing(st, added);
    Grows(st, Configured(st, added).value);
  }

  lemma NewItemSound(st: StoreState, item: Item)
    requires AdmitItem(st, item).Ok?
    ensures var later := AdmitItem(st, item).value;
            NewKnowledge(st, later) && NewDefinitions(st, later) && NewDecisions(st, later)
  {
    var later := AdmitItem(st, item).value;
    if item.RuleItem? {
      assert AdmitRule(st.vocabulary, item.version, item.body) == Ok(later.rules[item.rule]);
      assert ExtendsVocabulary(st.vocabulary, later.vocabulary) && RuleSound(later, item.rule);
    }
  }

  lemma AdmitItemKeeps(st: StoreState, item: Item)
    requires Sound(st) && AdmitItem(st, item).Ok?
    ensures Sound(AdmitItem(st, item).value)
  {
    AdmitItemExtends(st, item);
    AdmitItemOnly(st, item);
    NewItemSound(st, item);
    Grows(st, AdmitItem(st, item).value);
  }

  lemma {:induction false} AdmitAllKeeps(st: StoreState, items: seq<Item>)
    requires Sound(st) && AdmitAll(st, items).Ok?
    ensures Sound(AdmitAll(st, items).value)
    decreases |items|
  {
    if items != [] {
      AdmitItemKeeps(st, items[0]);
      AdmitAllKeeps(AdmitItem(st, items[0]).value, items[1..]);
    }
  }

  lemma LatestKnown(entries: set<(string, string)>)
    ensures forall name :: name in Latest(entries) ==> (name, Latest(entries)[name]) in entries
  {
    var latest := Latest(entries);
    assert LatestOf(entries, latest);
    forall name | name in latest ensures (name, latest[name]) in entries {
      assert latest[name] in VersionsOf(entries, name);
    }
  }

  lemma NoParentReaches(snapshots: map<Id, Snapshot>, id: Id, parent: Option<Id>)
    requires ParentsPresent(snapshots) && id !in snapshots && (parent.Some? ==> parent.value in snapshots)
    ensures parent.Some? ==> !Reach(ParentGraph(snapshots), parent.value, id)
  {
    if parent.Some? && Reach(ParentGraph(snapshots), parent.value, id) {
      assert Closed(ParentGraph(snapshots), snapshots.Keys);
      ClosedReach(ParentGraph(snapshots), snapshots.Keys, parent.value, id);
    }
  }

  lemma NewSnapshotSound(st: StoreState, id: Id, parent: Option<Id>)
    requires KnowledgeSound(st) && Taken(st, id, parent).Ok?
    ensures SnapshotSound(Taken(st, id, parent).value, id)
  {
    assert RecordSet(SnapshotOf(st, id, parent)) == st.records.Keys;
    LatestKnown(st.vocabulary.properties.Keys);
    LatestKnown(st.vocabulary.predicates.Keys);
    assert parent.Some? ==> SnapshotSound(st, parent.value);
  }

  lemma TakenExtends(st: StoreState, id: Id, parent: Option<Id>)
    requires Taken(st, id, parent).Ok?
    ensures Extends(st, Taken(st, id, parent).value)
  {
  }

  lemma TakenAdds(st: StoreState, id: Id, parent: Option<Id>)
    requires KnowledgeSound(st) && Taken(st, id, parent).Ok?
    ensures var later := Taken(st, id, parent).value;
            NewKnowledge(st, later) && NewDefinitions(st, later) && NewDecisions(st, later)
  {
    NewSnapshotSound(st, id, parent);
  }

  lemma TakenKeepsTree(snapshots: map<Id, Snapshot>, snapshot: Snapshot)
    requires ParentsPresent(snapshots) && Acyclic(ParentGraph(snapshots)) && snapshot.id !in snapshots
    requires snapshot.parent.Some? ==> snapshot.parent.value in snapshots
    ensures Acyclic(ParentGraph(snapshots[snapshot.id := snapshot]))
  {
    NoParentReaches(snapshots, snapshot.id, snapshot.parent);
    var successors := if snapshot.parent.Some? then [snapshot.parent.value] else [];
    assert ParentGraph(snapshots[snapshot.id := snapshot]) == ParentGraph(snapshots)[snapshot.id := successors];
    AcyclicExtend(ParentGraph(snapshots), snapshot.id, successors);
  }

  lemma SoundHolds(st: StoreState)
    requires KnowledgeSound(st)
    ensures SnapshotsHold(st) && SnapshotsNameVocabulary(st) && RecordsGrow(st.snapshots) && ProofsHaveRecords(st)
    ensures WellTyped(st.records, st.vocabulary) && Anchored(st)
    ensures forall d :: d in st.derivations ==> forall x :: x in st.derivations[d].dependencies ==> x in st.records
  {
    assert forall s :: s in st.snapshots ==> SnapshotSound(st, s);
    assert forall d :: d in st.derivations ==> ProofSound(st, d);
    assert forall x :: x in st.records ==> RecordSound(st, x);
    assert forall r :: r in st.supersessions ==> ReplacementSound(st, r);
  }

  lemma TakenKeeps(st: StoreState, id: Id, parent: Option<Id>)
    requires Sound(st) && Taken(st, id, parent).Ok?
    ensures Sound(Taken(st, id, parent).value)
  {
    TakenExtends(st, id, parent);
    TakenAdds(st, id, parent);
    Grows(st, Taken(st, id, parent).value);
    SoundHolds(st);
    TakenKeepsTree(st.snapshots, SnapshotOf(st, id, parent));
  }

  lemma SupersededKeeps(st: StoreState, e: Supersession)
    requires Sound(st) && Superseded(st, e).Ok?
    ensures Sound(Superseded(st, e).value)
  {
    var later := WithEdge(st, e);
    forall x | x in later.records ensures RecordSound(later, x) {
      assert RecordSound(st, x);
    }
    forall s | s in later.snapshots ensures SnapshotSound(later, s) {
      assert SnapshotSound(st, s);
    }
    forall d | d in later.derivations ensures ProofSound(later, d) {
      assert ProofSound(st, d) && Rows(later) == Rows(st);
    }
    forall r | r in later.supersessions ensures ReplacementSound(later, r) {
      if r != e.retired {
        assert ReplacementSound(st, r);
      }
    }
    SupersededKeepsRest(st, e);
  }

  lemma SupersededKeepsRest(st: StoreState, e: Supersession)
    requires DefinitionsSound(st) && DecisionsSound(st)
    ensures DefinitionsSound(WithEdge(st, e)) && DecisionsSound(WithEdge(st, e))
  {
    var later := WithEdge(st, e);
    forall r | r in later.rules ensures RuleSound(later, r) {
      assert RuleSound(st, r);
    }
    forall c | c in later.contexts ensures ContextSound(later, c) {
      assert ContextSound(st, c);
    }
    forall s | s in later.scopes ensures ScopeSound(later, s) {
      assert ScopeSound(st, s);
    }
    forall s | s in later.groundings ensures GroundingSound(later, s) {
      assert GroundingSound(st, s);
    }
    forall p | p in later.problems ensures ProblemSound(later, p) {
      assert ProblemSound(st, p);
    }
    forall d | d in later.decisions ensures DecisionSound(later, d) {
      assert DecisionSound(st, d);
    }
  }

  /** A new identity is never reached from admitted records: the cycle test of `admit_derived` cannot fire. */
  lemma CycleTestNeverFires(st: StoreState, derived: Id, dependencies: seq<Id>)
    requires Sound(st) && derived !in st.records && forall d :: d in dependencies ==> d in st.records
    ensures !WouldCycle(st, derived, dependencies)
  {
    var g := DependencyGraph(st.derivations);
    forall x, y | x in st.records.Keys && Edge(g, x, y) ensures y in st.records.Keys {
      assert ProofSound(st, x);
    }
    forall d | d in dependencies ensures !Reach(g, d, derived) {
      if Reach(g, d, derived) {
        ClosedReach(g, st.records.Keys, d, derived);
      }
    }
  }

  lemma SortedSources(records: map<Id, Record>, dependencies: seq<Id>, sources: seq<Id>)
    requires (set s | s in sources) == SourcesOf(records, dependencies) && sources != []
    ensures var sorted := SortNames(set s | s in sources);
            && sorted != [] && (set s | s in sorted) == SourcesOf(records, dependencies)
            && forall s :: s in sorted <==> s in sources
  {
    var sorted := SortNames(set s | s in sources);
    assert sources[0] in sorted;
    assert (set s | s in sorted) == set s | s in sources;
  }

  lemma {:induction false} BindingIsListed(bindings: seq<(string, Id)>, name: string)
    requires BindingOf(bindings, name).Some?
    ensures exists b :: b in bindings && b.1 == BindingOf(bindings, name).value
  {
    if BindingOf(bindings[1..], name).Some? {
      BindingIsListed(bindings[1..], name);
      var b :| b in bindings[1..] && b.1 == BindingOf(bindings[1..], name).value;
      assert b in bindings;
    } else {
      assert bindings[0] in bindings;
    }
  }

  lemma BoundAreListed(bindings: seq<(string, Id)>, names: seq<string>, ids: seq<Id>)
    requires BoundTo(bindings, names) == Somes(ids)
    ensures |ids| == |names| && forall x :: x in ids ==> exists b :: b in bindings && b.1 == x
  {
    assert |BoundTo(bindings, names)| == |Somes(ids)|;
    forall x | x in ids ensures exists b :: b in bindings && b.1 == x {
      var i :| 0 <= i < |ids| && ids[i] == x;
      assert BoundTo(bindings, names)[i] == Somes(ids)[i];
      BindingIsListed(bindings, names[i]);
    }
  }

  lemma AdmittedHead(st: StoreState, rule: Id)
    requires rule in st.rules && RuleSound(st, rule)
    ensures var body := st.rules[rule].body;
            && body.head.participants == body.participants && SeemsDistinct(body.participants)
            && (body.head.predicateId, body.head.version) in st.vocabulary.predicates
            && |body.participants| == st.vocabulary.predicates[(body.head.predicateId, body.head.version)]
            && forall name :: name in body.participants ==> name != ""
  {
    var vocabulary, body :| ExtendsVocabulary(vocabulary, st.vocabulary)
                            && AdmitRule(vocabulary, st.rules[rule].version, body) == Ok(st.rules[rule]);
  }

  lemma NewTermSound(st: StoreState, derived: Id, r: GroundingResult)
    requires KnowledgeSound(st) && DefinitionsSound(st) && DerivationFits(st, derived, r)
    ensures TermSound(st, DerivedRelation(derived, r.conclusion.value))
  {
    var snap, c := st.snapshots[r.snapshot], r.conclusion.value;
    assert SnapshotSound(st, r.snapshot) && RuleSound(st, r.rule);
    AdmittedHead(st, r.rule);
    BoundAreListed(r.bindings, snap.rules[r.rule].body.head.participants, c.participants);
  }

  lemma DerivedMakes(st: StoreState, derived: Id, r: GroundingResult)
    requires Derived(st, derived, r).Ok?
    ensures DerivationFits(st, derived, r)
    ensures Derived(st, derived, r).value
         == st.(records := st.records[derived := DerivedRelation(derived, r.conclusion.value)],
                derivations := st.derivations[derived := DerivationFrom(derived, r)])
  {
  }

  lemma FittingIsTraceable(st: StoreState, derived: Id, r: GroundingResult)
    requires DerivationFits(st, derived, r)
    ensures Traceable(st.sources, DerivedRelation(derived, r.conclusion.value).sources) && KnowledgeFree(st, derived)
  {
    SortedSources(st.records, r.dependencies, r.conclusion.value.sources);
  }

  lemma AddedRelationSound(st: StoreState, later: StoreState, x: Id)
    requires x in later.records && later.records[x].Relation? && later.records[x].id == x
    requires Traceable(st.sources, later.records[x].sources) && KnowledgeFree(st, x) && TermSound(st, later.records[x])
    requires later.sources == st.sources && later.isolated == st.isolated
    requires later.vocabulary == st.vocabulary && later.descriptions == st.descriptions
    ensures RecordSound(later, x)
  {
  }

  lemma NewRecordSound(st: StoreState, derived: Id, r: GroundingResult)
    requires KnowledgeSound(st) && DefinitionsSound(st) && Derived(st, derived, r).Ok?
    ensures RecordSound(Derived(st, derived, r).value, derived)
  {
    DerivedMakes(st, derived, r);
    FittingIsTraceable(st, derived, r);
    NewTermSound(st, derived, r);
    AddedRelationSound(st, Derived(st, derived, r).value, derived);
  }

  lemma NewProofSound(st: StoreState, derived: Id, r: GroundingResult)
    requires Derived(st, derived, r).Ok?
    ensures ProofSound(Derived(st, derived, r).value, derived)
  {
    var later := Derived(st, derived, r).value;
    SortedSources(st.records, r.dependencies, r.conclusion.value.sources);
    SourcesFrame(st.records, later.records, r.dependencies);
    assert later.derivations[derived] == DerivationFrom(derived, r);
    assert later.records[derived] == DerivedRelation(derived, r.conclusion.value);
    assert Paired(Rows(later), derived);
    NewProofMatches(st, derived, r);
  }

  lemma NewProofMatches(st: StoreState, derived: Id, r: GroundingResult)
    requires Derived(st, derived, r).Ok?
    requires var later := Derived(st, derived, r).value;
             && SourcesOf(later.records, r.dependencies) == SourcesOf(st.records, r.dependencies)
             && var sorted := later.records[derived].sources;
             && (set s | s in sorted) == SourcesOf(st.records, r.dependencies)
             && forall s :: s in sorted ==> s in st.sources
    ensures var later := Derived(st, derived, r).value; ProofMatches(Rows(later), later.records[derived])
  {
  }

  lemma DerivedAdds(st: StoreState, derived: Id, r: GroundingResult)
    requires KnowledgeSound(st) && DefinitionsSound(st) && Derived(st, derived, r).Ok?
    ensures var later := Derived(st, derived, r).value;
            NewKnowledge(st, later) && NewDefinitions(st, later) && NewDecisions(st, later)
  {
    NewRecordSound(st, derived, r);
    NewProofSound(st, derived, r);
  }

  lemma DerivedKeepsOrder(st: StoreState, derived: Id, r: GroundingResult)
    requires Acyclic(DependencyGraph(st.derivations)) && ProofsHaveRecords(st) && Derived(st, derived, r).Ok?
    ensures Acyclic(DependencyGraph(Derived(st, derived, r).value.derivations))
  {
    assert derived !in st.derivations;
    AddedProofAcyclic(st.derivations, derived, DerivationFrom(derived, r));
  }

  lemma AddedProofAcyclic(derivations: map<Id, Derivation>, derived: Id, proof: Derivation)
    requires Acyclic(DependencyGraph(derivations)) && derived !in derivations
    requires forall d :: d in proof.dependencies ==> !Reach(DependencyGraph(derivations), d, derived)
    ensures Acyclic(DependencyGraph(derivations[derived := proof]))
  {
    assert DependencyGraph(derivations[derived := proof]) == DependencyGraph(derivations)[derived := proof.dependencies];
    AcyclicExtend(DependencyGraph(derivations), derived, proof.dependencies);
  }

  lemma DerivedKeeps(st: StoreState, derived: Id, r: GroundingResult)
    requires Sound(st) && Derived(st, derived, r).Ok?
    ensures Sound(Derived(st, derived, r).value)
  {
    SoundHolds(st);
    DerivedExtends(st, derived, r);
    DerivedAdds(st, derived, r);
    Grows(st, Derived(st, derived, r).value);
    DerivedKeepsOrder(st, derived, r);
  }

  lemma LiveRunShape(st: StoreState, scope: DecisionScope, g: DecisionGrounding, effective: set<Id>)
    requires DistinctNames(Observed(g.observations)) && forall o :: o in g.observations ==> Live(st, scope, o, effective)
    ensures RunShape(g)
  {
    forall o | o in g.observations ensures ObservationShape(o) && (o.failure.None? ==> o.evidence.Some?) {
      assert Live(st, scope, o, effective);
    }
  }

  lemma EvaluatedFits(st: StoreState, scope: DecisionScope, g: DecisionGrounding, effective: set<Id>)
    requires EnvironmentOk(st, scope) && ManifestOk(scope) && EvaluateScope(st, scope, effective) == Ok(g)
    ensures g.scope == scope.id && g.current && Observed(g.observations) == scope.candidates && RunShape(g)
  {
    EvaluationAgrees(st, scope, effective);
    LiveRunShape(st, scope, g, effective);
  }

  lemma NewProblemSound(st: StoreState, id: Id, p: Problem)
    requires Sound(st) && AddProblem(st, id, p).Ok?
    ensures ProblemSound(AddProblem(st, id, p).value, id)
  {
    assert ScopeSound(st, p.scope) && GroundingSound(st, p.scope);
    ValidExactlyAsBuilt(st, p, ScopeView(st, p.scope));
    Explanations.ValidSelects(st, p, ScopeView(st, p.scope), id);
  }

  lemma OnlyDecisionsKeeps(st: StoreState, later: StoreState)
    requires Sound(st) && OnlyDecisions(st, later) && NewDecisions(st, later)
    ensures Sound(later)
  {
    OnlyDecisionsExtends(st, later);
    Grows(st, later);
  }

  lemma CreatedKeeps(st: StoreState, scope: DecisionScope)
    requires Sound(st) && Created(st, scope).Ok?
    ensures Sound(Created(st, scope).value)
  {
    CreatedAdds(st, scope);
    OnlyDecisionsKeeps(st, Created(st, scope).value);
  }

  lemma GroundingIsNew(st: StoreState, id: Id, g: DecisionGrounding)
    requires id !in st.groundings && GroundingSound(st.(groundings := st.groundings[id := g]), id)
    ensures var later := st.(groundings := st.groundings[id := g]); OnlyDecisions(st, later) && NewDecisions(st, later)
  {
  }

  lemma GroundingAdded(st: StoreState, id: Id, g: DecisionGrounding)
    requires Sound(st) && id !in st.groundings
    requires GroundingSound(st.(groundings := st.groundings[id := g]), id)
    ensures Sound(st.(groundings := st.groundings[id := g]))
  {
    GroundingIsNew(st, id, g);
    OnlyDecisionsKeeps(st, st.(groundings := st.groundings[id := g]));
  }

  lemma RunScopeMakes(st: StoreState, id: Id) returns (g: DecisionGrounding)
    requires RunScope(st, id).Ok?
    ensures id in st.scopes && id !in st.groundings
    ensures EvaluateScope(st, st.scopes[id], ScopeView(st, id)) == Ok(g)
    ensures RunScope(st, id).value == st.(groundings := st.groundings[id := g])
  {
    g := EvaluateScope(st, st.scopes[id], ScopeView(st, id)).value;
  }

  lemma RunScopeKeeps(st: StoreState, id: Id)
    requires Sound(st) && RunScope(st, id).Ok?
    ensures Sound(RunScope(st, id).value)
  {
    var g := RunScopeMakes(st, id);
    assert ScopeSound(st, id);
    EvaluatedFits(st, st.scopes[id], g, ScopeView(st, id));
    GroundingAdded(st, id, g);
  }

  lemma ProblemIsNew(st: StoreState, id: Id, p: Problem)
    requires id !in st.problems && ProblemSound(st.(problems := st.problems[id := p]), id)
    ensures var later := st.(problems := st.problems[id := p]); OnlyDecisions(st, later) && NewDecisions(st, later)
  {
  }

  lemma ProblemAdded(st: StoreState, id: Id, p: Problem)
    requires Sound(st) && id !in st.problems
    requires ProblemSound(st.(problems := st.problems[id := p]), id)
    ensures Sound(st.(problems := st.problems[id := p]))
  {
    ProblemIsNew(st, id, p);
    OnlyDecisionsKeeps(st, st.(problems := st.problems[id := p]));
  }

  lemma AddProblemKeeps(st: StoreState, id: Id, p: Problem)
    requires Sound(st) && AddProblem(st, id, p).Ok?
    ensures Sound(AddProblem(st, id, p).value)
  {
    NewProblemSound(st, id, p);
    ProblemAdded(st, id, p);
  }

  lemma DecisionIsNew(st: StoreState, id: Id, d: Decision)
    requires id !in st.decisions && DecisionSound(st.(decisions := st.decisions[id := d]), id)
    ensures var later := st.(decisions := st.decisions[id := d]); OnlyDecisions(st, later) && NewDecisions(st, later)
  {
  }

  lemma DecisionAdded(st: StoreState, id: Id, d: Decision)
    requires Sound(st) && id !in st.decisions
    requires DecisionSound(st.(decisions := st.decisions[id := d]), id)
    ensures Sound(st.(decisions := st.decisions[id := d]))
  {
    DecisionIsNew(st, id, d);
    OnlyDecisionsKeeps(st, st.(decisions := st.decisions[id := d]));
  }

  lemma AddDecisionKeeps(st: StoreState, id: Id, s: Selection)
    requires Sound(st) && AddDecision(st, id, s).Ok?
    ensures Sound(AddDecision(st, id, s).value)
  {
    assert ProblemSound(st, s.source) && GroundingSound(st, st.problems[s.source].scope);
    DecisionAdded(st, id, DecisionOf(id, s));
  }

  /** Every step of the store keeps every invariant. */
  lemma StepKeepsSound(st: StoreState, step: Step)
    requires Sound(st)
    ensures Sound(After(st, step))
  {
    if Apply(st, step).Ok? {
      match step
      case ConfigureVocabulary(added) => ConfigureKeeps(st, added);
      case Admit(items) => AdmitAllKeeps(st, items);
      case TakeSnapshot(id, parent) => TakenKeeps(st, id, parent);
      case Supersede(retired, replacement, snapshot) => SupersededKeeps(st, Supersession(retired, replacement, snapshot));
      case AdmitDerived(id, result) => DerivedKeeps(st, id, result);
      case CreateScope(scope) => CreatedKeeps(st, scope);
      case EvaluateDecisionScope(id) => RunScopeKeeps(st, id);
      case AdmitProblem(id, problem) => AddProblemKeeps(st, id, problem);
      case AdmitDecision(id, selection) => AddDecisionKeeps(st, id, selection);
    }
  }

  /** Every reachable state is sound. */
  lemma {:induction false} RunKeepsSound(st: StoreState, steps: seq<Step>)
    requires Sound(st)
    ensures Sound(Run(st, steps))
    decreases |steps|
  {
    if steps != [] {
      StepKeepsSound(st, steps[0]);
      RunKeepsSound(After(st, steps[0]), steps[1..]);
    }
  }
}

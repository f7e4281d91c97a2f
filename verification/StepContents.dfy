/** What the single steps demand and what they publish, told from the stored values. */
module StepContents {
  import opened Graph
  import opened Lineage
  import opened LineageTheorems
  import opened Model
  import opened Ordering
  import Problems
  import opened RestoreClosure
  import opened Rules
  import opened Scopes
  import opened ScopeTheorems
  import opened StoreSteps
  import opened Supersessions
  import opened GroundingTheorems

  // ---------------------------------------------------------------- vocabulary

  /** Every entry of either, and nothing else. */
  ghost predicate Merged<K(!new), V(!new)>(a: map<K, V>, b: map<K, V>, all: map<K, V>)
  {
    && (forall key :: key in all <==> key in a || key in b)
    && (forall key :: key in a ==> all[key] == a[key])
    && forall key :: key in b ==> all[key] == b[key]
  }

  /** A vocabulary is merged with the known one, or refused when they differ about an entry. */
  lemma ConfiguredExactly(st: StoreState, added: Vocabulary)
    ensures var r := Configured(st, added);
            && (r.Ok? <==>
                  && (forall key :: key in added.predicates && key in st.vocabulary.predicates ==> added.predicates[key] == st.vocabulary.predicates[key])
                  && forall key :: key in added.properties && key in st.vocabulary.properties ==> added.properties[key] == st.vocabulary.properties[key])
            && (r.Ok? ==>
                  && r.value == st.(vocabulary := r.value.vocabulary)
                  && Merged(st.vocabulary.predicates, added.predicates, r.value.vocabulary.predicates)
                  && Merged(st.vocabulary.properties, added.properties, r.value.vocabulary.properties))
  {
  }

  // ---------------------------------------------------------------- snapshots

  /** Every name that has entries, with the greatest version among them. */
  ghost predicate GreatestVersions<V(!new)>(entries: map<(string, string), V>, latest: map<string, string>)
  {
    && (forall name, version :: (name, version) in entries ==> name in latest)
    && (forall name :: name in latest ==> (name, latest[name]) in entries)
    && forall name, version :: (name, version) in entries && name in latest ==> version == latest[name] || Below(version, latest[name])
  }

  /** All records in ascending order, the latest version of every predicate and property, and the definitions as they are. */
  ghost predicate SnapshotTold(st: StoreState, id: Id, parent: Option<Id>, s: Snapshot)
  {
    && s.id == id && s.parent == parent
    && Ascending(s.records) && (forall x :: x in s.records <==> x in st.records)
    && GreatestVersions(st.vocabulary.predicates, s.predicates) && GreatestVersions(st.vocabulary.properties, s.properties)
    && s.contexts == st.contexts && s.rules == st.rules && s.descriptions == st.descriptions
  }

  lemma LatestIsGreatest<V(!new)>(entries: map<(string, string), V>, latest: map<string, string>)
    requires LatestOf(entries.Keys, latest)
    ensures GreatestVersions(entries, latest)
  {
    forall name, version | (name, version) in entries ensures name in latest {
      assert (name, version) in entries.Keys && (name, version).0 == name;
      assert name in set e | e in entries.Keys :: e.0;
    }
    forall name | name in latest ensures (name, latest[name]) in entries {
      assert latest[name] in VersionsOf(entries.Keys, name);
      var e :| e in entries.Keys && e.0 == name && e.1 == latest[name];
      assert e == (name, latest[name]);
    }
    forall name, version | (name, version) in entries && name in latest ensures version == latest[name] || Below(version, latest[name]) {
      assert (name, version) in entries.Keys && (name, version).1 in VersionsOf(entries.Keys, name);
    }
  }

  /** A snapshot is taken exactly under a new identity and below a snapshot that is there. */
  lemma TakenExactly(st: StoreState, id: Id, parent: Option<Id>)
    ensures var r := Taken(st, id, parent);
            && (r.Ok? <==> id !in st.snapshots && (SnapshotRow, id) !in st.isolated && (parent.Some? ==> parent.value in st.snapshots))
            && (r.Ok? ==>
                  && id in r.value.snapshots && SnapshotTold(st, id, parent, r.value.snapshots[id])
                  && r.value == st.(snapshots := st.snapshots[id := r.value.snapshots[id]]))
  {
    LatestIsGreatest(st.vocabulary.predicates, Latest(st.vocabulary.predicates.Keys));
    LatestIsGreatest(st.vocabulary.properties, Latest(st.vocabulary.properties.Keys));
  }

  // ---------------------------------------------------------------- replacements

  /** Two properties of one description, property, version and kind of value. */
  ghost predicate SameProperty(a: Record, b: Record)
  {
    && a.Property? && b.Property? && a.description == b.description && a.property == b.property && a.version == b.version
    && a.value.Kind() == b.value.Kind()
  }

  /** Two relations of one predicate, version, polarity and list of participants. */
  ghost predicate SameRelation(a: Record, b: Record)
  {
    && a.Relation? && b.Relation? && a.predicateId == b.predicateId && a.version == b.version && a.polarity == b.polarity
    && a.participants == b.participants
  }

  /** Following replacements leads from `x` to `y`, both ends included. */
  ghost predicate ReplacedBy(st: StoreState, x: Id, steps: seq<Id>, y: Id)
    decreases |steps|
  {
    if steps == [] then x == y
    else x in st.supersessions && st.supersessions[x].replacement == steps[0] && ReplacedBy(st, steps[0], steps[1..], y)
  }

  lemma {:induction false} ReplacedIsPath(st: StoreState, x: Id, steps: seq<Id>, y: Id)
    ensures ReplacedBy(st, x, steps, y) <==> Path(ReplacementGraph(st.supersessions), x, steps, y)
    decreases |steps|
  {
    if steps != [] {
      ReplacedIsPath(st, steps[0], steps[1..], y);
    }
  }

  lemma ReplacedIsReach(st: StoreState, x: Id, y: Id)
    ensures (exists steps :: ReplacedBy(st, x, steps, y)) <==> Reach(ReplacementGraph(st.supersessions), x, y)
  {
    if steps :| ReplacedBy(st, x, steps, y) {
      ReplacedIsPath(st, x, steps, y);
    }
    if Reach(ReplacementGraph(st.supersessions), x, y) {
      var steps :| Path(ReplacementGraph(st.supersessions), x, steps, y);
      ReplacedIsPath(st, x, steps, y);
    }
  }

  /** Over replacements that run in no circles a record is retired exactly once, by another record of the same slot that
      does not lead back to it, both of them records of the snapshot. */
  lemma SupersededExactly(st: StoreState, e: Supersession)
    requires Acyclic(ReplacementGraph(st.supersessions))
    ensures var r := Superseded(st, e);
            && (r.Ok? <==>
                  && e.retired in st.records && e.replacement in st.records && e.retired != e.replacement
                  && (SameProperty(st.records[e.retired], st.records[e.replacement]) || SameRelation(st.records[e.retired], st.records[e.replacement]))
                  && e.snapshot in st.snapshots
                  && e.retired in st.snapshots[e.snapshot].records && e.replacement in st.snapshots[e.snapshot].records
                  && e.retired !in st.supersessions && (SupersessionRow, "supersession:" + e.retired) !in st.isolated
                  && !exists steps :: ReplacedBy(st, e.replacement, steps, e.retired))
            && (r.Ok? ==> r.value == st.(supersessions := st.supersessions[e.retired := e]))
  {
    AdmissibleExactly(st, e);
    ReplacedIsReach(st, e.replacement, e.retired);
  }

  // ---------------------------------------------------------------- derivations

  /** Dependencies of proofs lead from `x` to `y`, both ends included. */
  ghost predicate RestsVia(st: StoreState, x: Id, steps: seq<Id>, y: Id)
    decreases |steps|
  {
    if steps == [] then x == y
    else x in st.derivations && steps[0] in st.derivations[x].dependencies && RestsVia(st, steps[0], steps[1..], y)
  }

  lemma {:induction false} RestsIsPath(st: StoreState, x: Id, steps: seq<Id>, y: Id)
    ensures RestsVia(st, x, steps, y) <==> Path(DependencyGraph(st.derivations), x, steps, y)
    decreases |steps|
  {
    if steps != [] {
      RestsIsPath(st, steps[0], steps[1..], y);
    }
  }

  lemma RestsIsReach(st: StoreState, x: Id, y: Id)
    ensures (exists steps :: RestsVia(st, x, steps, y)) <==> Reach(DependencyGraph(st.derivations), x, y)
  {
    if steps :| RestsVia(st, x, steps, y) {
      RestsIsPath(st, x, steps, y);
    }
    if Reach(DependencyGraph(st.derivations), x, y) {
      var steps :| Path(DependencyGraph(st.derivations), x, steps, y);
      RestsIsPath(st, x, steps, y);
    }
  }

  /** The proof that a grounding with a conclusion gives. */
  ghost predicate ProofTold(derived: Id, r: GroundingResult, proof: Derivation)
  {
    && proof.id == derived && proof.rule == r.rule && proof.ruleVersion == r.ruleVersion && proof.bindings == r.bindings
    && proof.snapshot == r.snapshot && proof.context == r.context && proof.dependencies == r.dependencies
  }

  /** The relation it concludes, with its sources in ascending order. */
  ghost predicate RelationTold(derived: Id, c: Conclusion, relation: Record)
  {
    && relation.Relation? && relation.id == derived && relation.derivation == Some(derived) && relation.epistemic == Exact
    && relation.predicateId == c.predicateId && relation.version == c.version && relation.participants == c.participants
    && relation.polarity == c.polarity && relation.scope == c.scope
    && Ascending(relation.sources) && forall s :: s in relation.sources <==> s in c.sources
  }

  /** A settled, TRUE grounding whose conclusion speaks of the same rule and the same dependencies. */
  ghost predicate Conclusive(r: GroundingResult)
  {
    && r.truth == True && r.conclusion.Some? && r.missing == [] && r.ambiguous == []
    && r.conclusion.value.rule == r.rule && r.conclusion.value.ruleVersion == r.ruleVersion
    && r.conclusion.value.dependencies == r.dependencies
    && DistinctNames(r.dependencies)
    && forall i, j :: 0 <= i < j < |r.bindings| ==> r.bindings[i].0 != r.bindings[j].0
  }

  /** The conclusion has sources, all of them admitted. */
  ghost predicate Sourceful(st: StoreState, c: Conclusion)
  {
    c.sources != [] && forall s :: s in c.sources ==> s in st.sources
  }

  /** No row of the file holds the place of the relation or of its proof. */
  ghost predicate Vacant(st: StoreState, derived: Id)
  {
    && derived !in st.records && (RelationRow, derived) !in st.isolated && (PropertyRow, derived) !in st.isolated
    && (DerivationRow, derived) !in st.isolated
  }

  lemma ConclusiveExactly(st: StoreState, derived: Id, r: GroundingResult)
    requires r.conclusion.Some?
    ensures Conclusive(r)
       <==> && r.truth.True? && r.conclusion.value.dependencies == r.dependencies && r.missing == [] && r.ambiguous == []
            && DistinctNames(r.dependencies) && DistinctNames(Names(r.bindings))
            && r.conclusion.value.rule == r.rule && r.conclusion.value.ruleVersion == r.ruleVersion
  {
    assert forall i :: 0 <= i < |r.bindings| ==> Names(r.bindings)[i] == r.bindings[i].0;
  }

  lemma SameSources(sources: seq<Id>, sorted: seq<Id>)
    requires forall s :: s in sorted <==> s in sources
    ensures (set s | s in sorted) == (set s | s in sources)
  {
  }

  lemma ConclusionInCode(st: StoreState, derived: Id, r: GroundingResult)
    requires r.conclusion.Some? && r.snapshot in st.snapshots && DistinctNames(Names(r.bindings)) && Conclusive(r) && Vacant(st, derived)
    ensures DerivationFits(st, derived, r)
       <==> && Sourceful(st, r.conclusion.value)
            && ProvesInCode(DerivationFrom(derived, r), st.snapshots[r.snapshot], st.records, DerivedRelation(derived, r.conclusion.value))
  {
    SameSources(r.conclusion.value.sources, DerivedRelation(derived, r.conclusion.value).sources);
  }

  lemma FitsExactly(st: StoreState, derived: Id, r: GroundingResult)
    requires r.conclusion.Some?
    ensures DerivationFits(st, derived, r)
       <==> && Vacant(st, derived) && Conclusive(r) && Sourceful(st, r.conclusion.value) && r.snapshot in st.snapshots
            && Proves(DerivationFrom(derived, r), st.snapshots[r.snapshot], st.records, DerivedRelation(derived, r.conclusion.value))
  {
    ConclusiveExactly(st, derived, r);
    if Conclusive(r) && Vacant(st, derived) && r.snapshot in st.snapshots {
      ConclusionInCode(st, derived, r);
      ProvesExactly(DerivationFrom(derived, r), st.snapshots[r.snapshot], st.records, DerivedRelation(derived, r.conclusion.value));
    }
  }

  lemma WouldCycleExactly(st: StoreState, derived: Id, dependencies: seq<Id>)
    ensures WouldCycle(st, derived, dependencies) <==> exists d, steps :: d in dependencies && RestsVia(st, d, steps, derived)
  {
    if WouldCycle(st, derived, dependencies) {
      var d :| d in dependencies && Reach(DependencyGraph(st.derivations), d, derived);
      RestsIsReach(st, d, derived);
      var steps :| RestsVia(st, d, steps, derived);
    }
    if d, steps :| d in dependencies && RestsVia(st, d, steps, derived) {
      RestsIsPath(st, d, steps, derived);
      assert Reach(DependencyGraph(st.derivations), d, derived);
    }
  }

  /**
   * A grounding is admitted exactly when its proof proves the relation it concludes at the snapshot and from the records
   * of the store, under an identity that is free and that none of the dependencies rests on; relation and proof are
   * published together and nothing else changes.
   */
  lemma DerivedExactly(st: StoreState, derived: Id, r: GroundingResult, proof: Derivation, relation: Record)
    requires r.conclusion.Some? && ProofTold(derived, r, proof) && RelationTold(derived, r.conclusion.value, relation)
    ensures var next := Derived(st, derived, r);
            && (next.Ok? <==>
                  && Vacant(st, derived) && Conclusive(r) && Sourceful(st, r.conclusion.value) && r.snapshot in st.snapshots
                  && Proves(proof, st.snapshots[r.snapshot], st.records, relation)
                  && !exists d, steps :: d in r.dependencies && RestsVia(st, d, steps, derived))
            && (next.Ok? ==> next.value == st.(records := st.records[derived := relation], derivations := st.derivations[derived := proof]))
  {
    AscendingUnique(relation.sources, SortNames(set s | s in r.conclusion.value.sources));
    assert proof == DerivationFrom(derived, r) && relation == DerivedRelation(derived, r.conclusion.value);
    FitsExactly(st, derived, r);
    WouldCycleExactly(st, derived, r.dependencies);
  }

  lemma InconclusiveIsRefused(st: StoreState, derived: Id, r: GroundingResult)
    requires r.conclusion.None?
    ensures Derived(st, derived, r).Err?
  {
  }

  // ---------------------------------------------------------------- decision scopes

  /** What the snapshot of a scope has to know and to agree on with the store. */
  ghost predicate Agreed(st: StoreState, scope: DecisionScope)
  {
    && scope.snapshot in st.snapshots && scope.context in st.contexts
    && var snap := st.snapshots[scope.snapshot];
    && scope.context in snap.contexts && snap.contexts[scope.context] == st.contexts[scope.context]
    && scope.intention in snap.descriptions && scope.request in snap.descriptions
    && (forall c :: c in scope.candidates ==> c in snap.descriptions)
    && scope.rules != []
    && forall r :: r in scope.rules ==> r in snap.rules && r in st.rules && snap.rules[r].version == st.rules[r].version
  }

  ghost predicate ListedOnce(names: seq<Id>)
  {
    forall i, j :: 0 <= i < |names| && 0 <= j < |names| && names[i] == names[j] ==> i == j
  }

  /** A scope of the current schema is published exactly under a new identity, with manifests without repetitions, an
      intention other than the request, and an environment that snapshot and store agree on. */
  lemma CreatedExactly(st: StoreState, scope: DecisionScope)
    ensures var r := Created(st, scope);
            && (r.Ok? <==>
                  && scope.id !in st.scopes && scope.current && ListedOnce(scope.candidates) && ListedOnce(scope.rules)
                  && scope.intention != scope.request && Agreed(st, scope))
            && (r.Ok? ==> r.value == st.(scopes := st.scopes[scope.id := scope]))
  {
  }

  /** A run is published exactly for a scope without a run, in an agreed environment and under a single rule; it observes
      the candidates as the effective records of the snapshot have it. */
  lemma RunScopeExactly(st: StoreState, id: Id)
    requires id in st.scopes ==> ManifestOk(st.scopes[id])
    ensures var r := RunScope(st, id);
            && (r.Ok? <==>
                  && id in st.scopes && id !in st.groundings && |st.scopes[id].rules| == 1
                  && Agreed(st, st.scopes[id]) && (st.scopes[id].current ==> st.scopes[id].intention != st.scopes[id].request))
            && (r.Ok? ==>
                  && id in r.value.groundings && r.value == st.(groundings := st.groundings[id := r.value.groundings[id]])
                  && RunTold(st, st.scopes[id], Effective(st, st.scopes[id].snapshot), r.value.groundings[id]))
  {
    if id in st.scopes {
      RunExactly(st, st.scopes[id], Problems.ScopeView(st, id));
    }
  }
}

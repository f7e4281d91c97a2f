/** What the history of a store never changes: the steps that only add, and what their additions leave alone. */
module StoreFrames {
  import opened Graph
  import opened Grounding
  import opened Lineage
  import opened LineageTheorems
  import opened Model
  import opened Ordering
  import opened Problems
  import opened RestoreClosure
  import opened Rules
  import opened RuleTheorems
  import opened Scopes
  import opened Selections
  import opened Statuses
  import opened StoreSteps
  import opened Traversal

  ghost predicate SubMap<K(!new), V(!new)>(a: map<K, V>, b: map<K, V>)
  {
    forall k :: k in a ==> k in b && b[k] == a[k]
  }

  /** `later` has everything `st` has, unchanged, the same replacements, and no new proof for an old record. */
  ghost predicate Extends(st: StoreState, later: StoreState)
  {
    && ExtendsVocabulary(st.vocabulary, later.vocabulary)
    && st.descriptions <= later.descriptions && st.sources <= later.sources
    && SubMap(st.rules, later.rules) && SubMap(st.contexts, later.contexts) && SubMap(st.snapshots, later.snapshots)
    && SubMap(st.records, later.records) && SubMap(st.derivations, later.derivations)
    && later.supersessions == st.supersessions && later.isolated == st.isolated
    && SubMap(st.scopes, later.scopes) && SubMap(st.groundings, later.groundings)
    && SubMap(st.problems, later.problems) && SubMap(st.decisions, later.decisions)
    && forall d :: d in later.derivations && d !in st.derivations ==> d !in st.records
  }

  lemma ExtendsTransitive(a: StoreState, b: StoreState, c: StoreState)
    requires Extends(a, b) && Extends(b, c)
    ensures Extends(a, c)
  {
  }

  lemma AdmitItemExtends(st: StoreState, item: Item)
    requires AdmitItem(st, item).Ok?
    ensures Extends(st, AdmitItem(st, item).value)
  {
  }

  lemma {:induction false} AdmitAllExtends(st: StoreState, items: seq<Item>)
    requires AdmitAll(st, items).Ok?
    ensures Extends(st, AdmitAll(st, items).value)
    decreases |items|
  {
    if items != [] {
      var next := AdmitItem(st, items[0]).value;
      AdmitItemExtends(st, items[0]);
      AdmitAllExtends(next, items[1..]);
      ExtendsTransitive(st, next, AdmitAll(st, items).value);
    }
  }

  /** No proof is filed without its relation. */
  ghost predicate ProofsHaveRecords(st: StoreState)
  {
    st.derivations.Keys <= st.records.Keys
  }

  lemma ExtendsSelf(st: StoreState)
    ensures Extends(st, st)
  {
  }

  lemma DerivedExtends(st: StoreState, derived: Id, r: GroundingResult)
    requires ProofsHaveRecords(st) && Derived(st, derived, r).Ok?
    ensures Extends(st, Derived(st, derived, r).value) && ProofsHaveRecords(Derived(st, derived, r).value)
  {
  }

  /** Nothing but scopes, runs, problems and decisions was added. */
  ghost predicate OnlyDecisions(st: StoreState, later: StoreState)
  {
    && later == st.(scopes := later.scopes, groundings := later.groundings, problems := later.problems, decisions := later.decisions)
    && SubMap(st.scopes, later.scopes) && SubMap(st.groundings, later.groundings)
    && SubMap(st.problems, later.problems) && SubMap(st.decisions, later.decisions)
  }

  lemma OnlyDecisionsExtends(st: StoreState, later: StoreState)
    requires OnlyDecisions(st, later)
    ensures Extends(st, later)
  {
  }

  predicate DecisionStep(step: Step)
  {
    step.CreateScope? || step.EvaluateDecisionScope? || step.AdmitProblem? || step.AdmitDecision?
  }

  lemma CreatedAdds(st: StoreState, scope: DecisionScope)
    requires Created(st, scope).Ok?
    ensures OnlyDecisions(st, Created(st, scope).value)
  {
  }

  lemma RunScopeAdds(st: StoreState, id: Id)
    requires RunScope(st, id).Ok?
    ensures OnlyDecisions(st, RunScope(st, id).value)
  {
  }

  lemma AddProblemAdds(st: StoreState, id: Id, p: Problem)
    requires AddProblem(st, id, p).Ok?
    ensures OnlyDecisions(st, AddProblem(st, id, p).value)
  {
  }

  lemma AddDecisionAdds(st: StoreState, id: Id, s: Selection)
    requires AddDecision(st, id, s).Ok?
    ensures OnlyDecisions(st, AddDecision(st, id, s).value)
  {
  }

  lemma DecisionStepAdds(st: StoreState, step: Step)
    requires DecisionStep(step) && Apply(st, step).Ok?
    ensures OnlyDecisions(st, After(st, step))
  {
    match step
    case CreateScope(scope) => CreatedAdds(st, scope);
    case EvaluateDecisionScope(id) => RunScopeAdds(st, id);
    case AdmitProblem(id, p) => AddProblemAdds(st, id, p);
    case AdmitDecision(id, s) => AddDecisionAdds(st, id, s);
  }

  /** Every step but a replacement only adds. */
  lemma StepExtends(st: StoreState, step: Step)
    requires ProofsHaveRecords(st)
    ensures ProofsHaveRecords(After(st, step))
    ensures !step.Supersede? ==> Extends(st, After(st, step))
  {
    if Apply(st, step).Err? {
      ExtendsSelf(st);
    } else {
      match step
      case ConfigureVocabulary(_) =>
      case Admit(items) => AdmitAllExtends(st, items); AdmitAllOnly(st, items);
      case TakeSnapshot(_, _) =>
      case Supersede(_, _, _) =>
      case AdmitDerived(id, result) => DerivedExtends(st, id, result);
      case _ => DecisionStepAdds(st, step); OnlyDecisionsExtends(st, After(st, step));
    }
  }

  /** Admission touches neither proofs nor snapshots nor decisions. */
  ghost predicate OnlyAdmitted(st: StoreState, later: StoreState)
  {
    && later == st.(descriptions := later.descriptions, sources := later.sources, rules := later.rules,
                    contexts := later.contexts, records := later.records)
    && st.records.Keys <= later.records.Keys
  }

  lemma AdmitItemOnly(st: StoreState, item: Item)
    requires AdmitItem(st, item).Ok?
    ensures OnlyAdmitted(st, AdmitItem(st, item).value)
  {
  }

  lemma {:induction false} AdmitAllOnly(st: StoreState, items: seq<Item>)
    requires AdmitAll(st, items).Ok?
    ensures OnlyAdmitted(st, AdmitAll(st, items).value)
    decreases |items|
  {
    if items != [] {
      AdmitItemOnly(st, items[0]);
      AdmitAllOnly(AdmitItem(st, items[0]).value, items[1..]);
    }
  }

  lemma {:induction false} RunExtends(st: StoreState, steps: seq<Step>)
    requires ProofsHaveRecords(st) && forall step :: step in steps ==> !step.Supersede?
    ensures Extends(st, Run(st, steps)) && ProofsHaveRecords(Run(st, steps))
    decreases |steps|
  {
    if steps == [] {
      ExtendsSelf(st);
    } else {
      assert steps[0] in steps && forall step :: step in steps[1..] ==> step in steps;
      StepExtends(st, steps[0]);
      RunExtends(After(st, steps[0]), steps[1..]);
      ExtendsTransitive(st, After(st, steps[0]), Run(st, steps));
    }
  }

  // ---------------------------------------------------------------- views of old snapshots

  /** Snapshots hold admitted records only. */
  ghost predicate SnapshotsHold(st: StoreState)
  {
    ParentsPresent(st.snapshots) && forall s :: s in st.snapshots ==> RecordSet(st.snapshots[s]) <= st.records.Keys
  }

  lemma {:induction false} AncestorPath(snapshots: map<Id, Snapshot>, later: map<Id, Snapshot>, s: Id, steps: seq<Id>, a: Id)
    requires ParentsPresent(snapshots) && SubMap(snapshots, later) && s in snapshots
    ensures Path(ParentGraph(snapshots), s, steps, a) <==> Path(ParentGraph(later), s, steps, a)
    decreases |steps|
  {
    if steps != [] && Edge(ParentGraph(later), s, steps[0]) {
      assert steps[0] in snapshots;
      AncestorPath(snapshots, later, steps[0], steps[1..], a);
    }
  }

  lemma DescendsFrame(snapshots: map<Id, Snapshot>, later: map<Id, Snapshot>, s: Id, a: Id)
    requires ParentsPresent(snapshots) && SubMap(snapshots, later) && s in snapshots
    ensures Descends(snapshots, s, a) <==> Descends(later, s, a)
  {
    if steps :| Path(ParentGraph(snapshots), s, steps, a) {
      AncestorPath(snapshots, later, s, steps, a);
    }
    if steps :| Path(ParentGraph(later), s, steps, a) {
      AncestorPath(snapshots, later, s, steps, a);
    }
  }

  lemma VisibleFrame(st: StoreState, later: StoreState, snapshot: Id)
    requires SnapshotsHold(st) && Extends(st, later) && snapshot in st.snapshots
    ensures Visible(later, snapshot) == Visible(st, snapshot)
  {
    forall r | r in st.supersessions
      ensures Descends(st.snapshots, snapshot, st.supersessions[r].snapshot) <==> Descends(later.snapshots, snapshot, st.supersessions[r].snapshot)
    {
      DescendsFrame(st.snapshots, later.snapshots, snapshot, st.supersessions[r].snapshot);
    }
  }

  lemma SupportedFrame(derivations: map<Id, Derivation>, later: map<Id, Derivation>, base: set<Id>, members: set<Id>)
    requires SubMap(derivations, later) && members <= base
    requires forall d :: d in later && d !in derivations ==> d !in base
    ensures Lineage.Supported(derivations, members) <==> Lineage.Supported(later, members)
  {
    forall x | x in members ensures Unsupported(derivations, members, x) <==> Unsupported(later, members, x) {
    }
  }

  lemma PruneFrame(derivations: map<Id, Derivation>, later: map<Id, Derivation>, base: set<Id>)
    requires SubMap(derivations, later)
    requires forall d :: d in later && d !in derivations ==> d !in base
    ensures Prune(later, base) == Prune(derivations, base)
  {
    var members := Prune(derivations, base);
    SupportedFrame(derivations, later, base, members);
    forall other: set<Id> | other <= base && Lineage.Supported(later, other) ensures other <= members {
      SupportedFrame(derivations, later, base, other);
    }
    GreatestUnique(later, base, members, Prune(later, base));
  }

  /** The effective view of a snapshot is unaffected by anything that is only added later. */
  lemma EffectiveFrame(st: StoreState, later: StoreState, snapshot: Id)
    requires SnapshotsHold(st) && Extends(st, later) && snapshot in st.snapshots
    ensures Effective(later, snapshot) == Effective(st, snapshot)
    ensures Effective(st, snapshot) <= st.records.Keys
  {
    VisibleFrame(st, later, snapshot);
    assert Base(later, snapshot) == Base(st, snapshot);
    PruneFrame(st.derivations, later.derivations, Base(st, snapshot));
  }

  // ---------------------------------------------------------------- groundings at old snapshots

  lemma MatchesFrame(w: World, later: World, description: Id, property: string, version: string)
    requires SubMap(w.records, later.records) && w.visible == later.visible && w.visible <= w.records.Keys && w.scopes == later.scopes
    ensures Matches(later, description, property, version) == Matches(w, description, property, version)
  {
  }

  /** The two worlds show the same records and versions. */
  ghost predicate SameReadings(w: World, later: World)
  {
    && SubMap(w.records, later.records) && w.visible == later.visible && w.visible <= w.records.Keys
    && w.scopes == later.scopes && w.properties == later.properties
    && (forall key :: key in w.vocabulary.properties ==>
          key in later.vocabulary.properties && later.vocabulary.properties[key] == w.vocabulary.properties[key])
    && forall name :: name in w.properties ==> (name, w.properties[name]) in w.vocabulary.properties
  }

  lemma ReadFrame(w: World, later: World, bindings: map<string, Id>, e: Expr, s: Reads)
    requires SameReadings(w, later) && e.Node?
    ensures Read(later, bindings, e, s) == Read(w, bindings, e, s)
  {
    if e.participant in bindings && e.version.Version? {
      MatchesFrame(w, later, bindings[e.participant], e.property, e.version.text);
      var found := SortNames(Matches(w, bindings[e.participant], e.property, e.version.text));
      assert found != [] ==> found[0] in found;
    }
  }

  lemma {:induction false} EvaluateFrame(w: World, later: World, bindings: map<string, Id>, e: Expr, s: Reads)
    requires SameReadings(w, later)
    ensures Rules.Evaluate(later, bindings, e, s) == Rules.Evaluate(w, bindings, e, s)
  {
    if e.Node? && e.op == "property" {
      ReadFrame(w, later, bindings, e, s);
    } else if e.Node? && IsSetOperator(e.op) {
      EvaluateFrame(w, later, bindings, e.left, s);
      var left := Rules.Evaluate(w, bindings, e.left, s);
      if left.Yields? {
        EvaluateFrame(w, later, bindings, e.right, left.after);
      }
    }
  }

  /** Snapshots name vocabulary that exists. */
  ghost predicate SnapshotsNameVocabulary(st: StoreState)
  {
    forall s, name :: s in st.snapshots && name in st.snapshots[s].properties ==>
      (name, st.snapshots[s].properties[name]) in st.vocabulary.properties
  }

  lemma SourcesFrame(records: map<Id, Record>, later: map<Id, Record>, ids: seq<Id>)
    requires SubMap(records, later) && forall x :: x in ids ==> x in records
    ensures SourcesOf(later, ids) == SourcesOf(records, ids)
  {
  }

  /** Evaluation at an old snapshot sees the same world after any steps that only add. */
  lemma WorldFrame(st: StoreState, later: StoreState, snapshot: Id, context: Id, bindings: map<string, Id>, e: Expr)
    requires SnapshotsHold(st) && SnapshotsNameVocabulary(st) && Extends(st, later)
    requires snapshot in st.snapshots && context in st.snapshots[snapshot].contexts
    ensures Effective(later, snapshot) == Effective(st, snapshot)
    ensures var snap := st.snapshots[snapshot];
            var w := WorldAt(st, snap, snap.contexts[context], Effective(st, snapshot));
            var w' := WorldAt(later, snap, snap.contexts[context], Effective(st, snapshot));
            var o := Rules.Evaluate(w, bindings, e, Reads([], [], []));
            && Rules.Evaluate(w', bindings, e, Reads([], [], [])) == o
            && (o.Yields? ==> SourcesOf(later.records, o.after.dependencies) == SourcesOf(st.records, o.after.dependencies))
  {
    EffectiveFrame(st, later, snapshot);
    var snap, effective := st.snapshots[snapshot], Effective(st, snapshot);
    var w, w' := WorldAt(st, snap, snap.contexts[context], effective), WorldAt(later, snap, snap.contexts[context], effective);
    EvaluateFrame(w, w', bindings, e, Reads([], [], []));
    var o := Rules.Evaluate(w, bindings, e, Reads([], [], []));
    if o.Yields? {
      DependenciesEffective(w, bindings, e);
      SourcesFrame(st.records, later.records, o.after.dependencies);
    }
  }

  /** The grounding of a rule at a snapshot is the same after any steps that only add. */
  lemma GroundFrame(st: StoreState, later: StoreState, rule: Id, bindings: map<string, Id>, snapshot: Id, context: Id)
    requires SnapshotsHold(st) && SnapshotsNameVocabulary(st) && Extends(st, later) && snapshot in st.snapshots
    ensures Ground(later, rule, bindings, snapshot, context, Effective(later, snapshot))
         == Ground(st, rule, bindings, snapshot, context, Effective(st, snapshot))
  {
    assert Groundable(later, rule, bindings, snapshot, context) <==> Groundable(st, rule, bindings, snapshot, context);
    if Groundable(st, rule, bindings, snapshot, context) {
      WorldFrame(st, later, snapshot, context, bindings, st.snapshots[snapshot].rules[rule].body.condition);
    }
  }
}

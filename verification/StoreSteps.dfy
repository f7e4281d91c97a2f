/** The live steps of the store as functions of its state (src/atlas/store.py, `configure_vocabulary` to
    `admit_derived`). A step that raises publishes nothing. */
module StoreSteps {
  import opened Graph
  import opened Lineage
  import opened LineageTheorems
  import opened Model
  import opened Ordering
  import opened Problems
  import opened RestoreClosure
  import opened Rules
  import opened Scopes
  import opened Selections
  import opened Statuses
  import opened Supersessions

  datatype Item =
    | DescriptionItem(description: Id)
    | SourceItem(source: Id)
    | RecordItem(record: Record)
    | RuleItem(rule: Id, version: string, body: RuleBody)
    | ContextItem(context: Id, scopes: seq<string>, enabled: seq<Id>)

  datatype Step =
    | ConfigureVocabulary(added: Vocabulary)
    | Admit(items: seq<Item>)
    | TakeSnapshot(snapshot: Id, parent: Option<Id>)
    | Supersede(retired: Id, replacement: Id, snapshot: Id)
    | AdmitDerived(derived: Id, result: GroundingResult)
    | CreateScope(scope: DecisionScope)
    | EvaluateDecisionScope(scopeId: Id)
    | AdmitProblem(problemId: Id, problem: Problem)
    | AdmitDecision(decision: Id, selection: Selection)

  // ---------------------------------------------------------------- vocabulary

  predicate NoConflict<K, V(==)>(known: map<K, V>, added: map<K, V>)
  {
    forall key :: key in added && key in known ==> known[key] == added[key]
  }

  function Configured(st: StoreState, added: Vocabulary): Result<StoreState>
  {
    if !NoConflict(st.vocabulary.predicates, added.predicates) || !NoConflict(st.vocabulary.properties, added.properties)
    then Err("conflicting identity and version")
    else Ok(st.(vocabulary := Vocabulary(st.vocabulary.predicates + added.predicates, st.vocabulary.properties + added.properties)))
  }

  // ---------------------------------------------------------------- admission of a batch

  predicate Traceable(sources: set<Id>, named: seq<Id>)
  {
    named != [] && forall s :: s in named ==> s in sources
  }

  /** What admission demands of a property or relation. The proof a relation claims is not looked at. */
  predicate RecordFits(st: StoreState, r: Record)
  {
    && Traceable(st.sources, r.sources)
    && match r
       case Property(_, description, property, version, value, place, _, _) =>
         && description in st.descriptions && place != ""
         && (property, version) in st.vocabulary.properties && value.Kind() == st.vocabulary.properties[(property, version)]
       case Relation(_, predicateId, version, participants, _, scope, _, _, _) =>
         && (predicateId, version) in st.vocabulary.predicates
         && |participants| == st.vocabulary.predicates[(predicateId, version)]
         && SeemsDistinct(participants) && (forall p :: p in participants ==> p in st.descriptions)
         && scope.One? && scope.name != ""
  }

  /** No row that was set aside on opening holds this place in the file; otherwise the insertion fails. */
  predicate RowFree(st: StoreState, kind: RowKind, id: Id)
  {
    (kind, id) !in st.isolated
  }

  /** Properties and relations share their identities. */
  predicate KnowledgeFree(st: StoreState, id: Id)
  {
    RowFree(st, PropertyRow, id) && RowFree(st, RelationRow, id)
  }

  function AdmitItem(st: StoreState, item: Item): Result<StoreState>
  {
    match item
    case DescriptionItem(id) =>
      if id in st.descriptions then Err("duplicate description") else Ok(st.(descriptions := st.descriptions + {id}))
    case SourceItem(id) =>
      if id in st.sources then Err("duplicate source") else Ok(st.(sources := st.sources + {id}))
    case RecordItem(record) =>
      if record.id in st.records || !KnowledgeFree(st, record.id) then Err("duplicate knowledge")
      else if !RecordFits(st, record) then Err("invalid record")
      else Ok(st.(records := st.records[record.id := record]))
    case RuleItem(id, version, body) =>
      (match AdmitRule(st.vocabulary, version, body)
       case Err(reason) => Err(reason)
       case Ok(rule) =>
         if version == "" || id in st.rules || !RowFree(st, RuleRow, id) then Err("duplicate or unversioned rule") else Ok(st.(rules := st.rules[id := rule])))
    case ContextItem(id, scopes, enabled) =>
      if id in st.contexts || !RowFree(st, ContextRow, id) then Err("duplicate context")
      else if "" in scopes || exists r :: r in enabled && r !in st.rules then Err("empty scope or unresolved context rule")
      else Ok(st.(contexts := st.contexts[id := Context(scopes, enabled)]))
  }

  /** Items are admitted in order against what came before them; the first refusal refuses the batch. */
  function AdmitAll(st: StoreState, items: seq<Item>): Result<StoreState>
    decreases |items|
  {
    if items == [] then Ok(st)
    else
      match AdmitItem(st, items[0])
      case Err(reason) => Err(reason)
      case Ok(next) => AdmitAll(next, items[1..])
  }

  // ---------------------------------------------------------------- snapshots

  function VersionsOf(entries: set<(string, string)>, name: string): set<string>
  {
    set e | e in entries && e.0 == name :: e.1
  }

  /** The version that is last in the order of names. */
  predicate IsLatest(version: string, versions: set<string>)
  {
    version in versions && forall other :: other in versions ==> other == version || Below(other, version)
  }

  ghost predicate LatestOf(entries: set<(string, string)>, latest: map<string, string>)
  {
    && latest.Keys == (set e | e in entries :: e.0)
    && forall name :: name in latest ==> IsLatest(latest[name], VersionsOf(entries, name))
  }

  lemma LatestUnique(entries: set<(string, string)>, a: map<string, string>, b: map<string, string>)
    requires LatestOf(entries, a) && LatestOf(entries, b)
    ensures a == b
  {
    forall name | name in a ensures a[name] == b[name] {
      BelowTotal(a[name], b[name]);
    }
  }

  lemma LatestMore(entries: set<(string, string)>, latest: map<string, string>, e: (string, string))
    requires LatestOf(entries, latest)
    ensures LatestOf(entries + {e}, if e.0 !in latest || Below(latest[e.0], e.1) then latest[e.0 := e.1] else latest)
  {
    var next := if e.0 !in latest || Below(latest[e.0], e.1) then latest[e.0 := e.1] else latest;
    assert next.Keys == (set x | x in entries + {e} :: x.0);
    forall name | name in next ensures IsLatest(next[name], VersionsOf(entries + {e}, name)) {
      if name != e.0 {
        assert VersionsOf(entries + {e}, name) == VersionsOf(entries, name);
      } else {
        assert VersionsOf(entries + {e}, name) == VersionsOf(entries, name) + {e.1};
        if name in latest {
          BelowTotal(latest[name], e.1);
          forall other | other in VersionsOf(entries, name) && Below(latest[name], e.1) ensures Below(other, e.1) {
            if other != latest[name] {
              BelowTransitive(other, latest[name], e.1);
            }
          }
        } else {
          assert VersionsOf(entries, name) == {};
        }
      }
    }
  }

  /** `_latest_versions`: whatever the order of the entries, each name keeps its last version. */
  method LatestVersions(entries: set<(string, string)>) returns (latest: map<string, string>)
    ensures LatestOf(entries, latest)
  {
    latest := map[];
    var pending := entries;
    while pending != {}
      invariant pending <= entries && LatestOf(entries - pending, latest)
      decreases |pending|
    {
      var e :| e in pending;
      LatestMore(entries - pending, latest, e);
      assert entries - (pending - {e}) == (entries - pending) + {e};
      if e.0 !in latest || Below(latest[e.0], e.1) {
        latest := latest[e.0 := e.1];
      }
      pending := pending - {e};
    }
    assert entries - pending == entries;
  }

  lemma LatestExists(entries: set<(string, string)>)
    ensures exists latest :: LatestOf(entries, latest)
    decreases |entries|
  {
    if entries == {} {
      assert LatestOf(entries, map[]);
    } else {
      var e :| e in entries;
      LatestExists(entries - {e});
      var latest :| LatestOf(entries - {e}, latest);
      LatestMore(entries - {e}, latest, e);
      assert entries - {e} + {e} == entries;
    }
  }

  ghost function Latest(entries: set<(string, string)>): (latest: map<string, string>)
    ensures LatestOf(entries, latest)
  {
    LatestExists(entries);
    var latest :| LatestOf(entries, latest);
    latest
  }

  ghost function SnapshotOf(st: StoreState, id: Id, parent: Option<Id>): Snapshot
  {
    Snapshot(id, parent, SortNames(st.records.Keys), Latest(st.vocabulary.predicates.Keys), Latest(st.vocabulary.properties.Keys),
             st.contexts, st.rules, st.descriptions)
  }

  ghost function Taken(st: StoreState, id: Id, parent: Option<Id>): Result<StoreState>
  {
    if id in st.snapshots || !RowFree(st, SnapshotRow, id) then Err("duplicate snapshot")
    else if parent.Some? && parent.value !in st.snapshots then Err("unresolved parent")
    else Ok(st.(snapshots := st.snapshots[id := SnapshotOf(st, id, parent)]))
  }

  // ---------------------------------------------------------------- replacements and derivations

  /** The name of the row of a live replacement. */
  function EdgeRow(retired: Id): Id
  {
    "supersession:" + retired
  }

  ghost function Superseded(st: StoreState, e: Supersession): Result<StoreState>
  {
    if Supersessions.Admissible(st, e) && RowFree(st, SupersessionRow, EdgeRow(e.retired)) then Ok(WithEdge(st, e)) else Err("inadmissible supersession")
  }

  /** The tests of `admit_derived` on a grounding, except the one for a cycle. */
  predicate DerivationFits(st: StoreState, derived: Id, r: GroundingResult)
  {
    && r.truth.True? && r.conclusion.Some?
    && var c := r.conclusion.value;
    && c.dependencies == r.dependencies && r.missing == [] && r.ambiguous == []
    && DistinctNames(r.dependencies)
    && c.rule == r.rule && c.ruleVersion == r.ruleVersion
    && derived !in st.records && KnowledgeFree(st, derived) && RowFree(st, DerivationRow, derived)
    && r.snapshot in st.snapshots
    && var snap := st.snapshots[r.snapshot];
    && r.context in snap.contexts && r.rule in snap.rules && snap.rules[r.rule].version == r.ruleVersion
    && var body := snap.rules[r.rule].body;
    && DistinctNames(Names(r.bindings)) && Names(r.bindings) == body.participants && (forall b :: b in r.bindings ==> b.1 in snap.descriptions)
    && BoundTo(r.bindings, body.head.participants) == Somes(c.participants)
    && c.predicateId == body.head.predicateId && c.version == body.head.version && c.polarity == body.head.polarity
    && (forall d :: d in r.dependencies ==> d in st.records && d in snap.records)
    && c.scope == ScopeOf(snap.contexts[r.context].scopes)
    && (set s | s in c.sources) == SourcesOf(st.records, r.dependencies)
    && c.sources != [] && (forall s :: s in c.sources ==> s in st.sources)
  }

  function DerivedRelation(derived: Id, c: Conclusion): Record
  {
    Relation(derived, c.predicateId, c.version, c.participants, c.polarity, c.scope, Exact,
             SortNames(set s | s in c.sources), Some(derived))
  }

  function DerivationFrom(derived: Id, r: GroundingResult): Derivation
  {
    Derivation(derived, r.rule, r.ruleVersion, r.bindings, r.snapshot, r.context, r.dependencies)
  }

  /** One of the dependencies already rests on the proposed identity. */
  ghost predicate WouldCycle(st: StoreState, derived: Id, dependencies: seq<Id>)
  {
    exists d :: d in dependencies && Reach(DependencyGraph(st.derivations), d, derived)
  }

  ghost function Derived(st: StoreState, derived: Id, r: GroundingResult): Result<StoreState>
  {
    if !DerivationFits(st, derived, r) || WouldCycle(st, derived, r.dependencies) then Err("inadmissible derivation")
    else Ok(st.(records := st.records[derived := DerivedRelation(derived, r.conclusion.value)],
                derivations := st.derivations[derived := DerivationFrom(derived, r)]))
  }

  // ---------------------------------------------------------------- scopes, problems, decisions

  function Created(st: StoreState, scope: DecisionScope): Result<StoreState>
  {
    if scope.id in st.scopes then Err("duplicate scope")
    else if !scope.current || !ManifestOk(scope) || !EnvironmentOk(st, scope) then Err("invalid scope")
    else Ok(st.(scopes := st.scopes[scope.id := scope]))
  }

  ghost function RunScope(st: StoreState, id: Id): Result<StoreState>
  {
    if id !in st.scopes then Err("unknown scope")
    else if id in st.groundings then Err("grounding exists")
    else
      match EvaluateScope(st, st.scopes[id], ScopeView(st, id))
      case Err(reason) => Err(reason)
      case Ok(g) => Ok(st.(groundings := st.groundings[id := g]))
  }

  ghost function AddProblem(st: StoreState, id: Id, p: Problem): Result<StoreState>
  {
    if id in st.problems then Err("duplicate problem")
    else if BuildProblem(st, p.scope, ScopeView(st, p.scope)) != Some(p) then Err("incoherent problem")
    else Ok(st.(problems := st.problems[id := p]))
  }

  /** What the constructor of a selection demands. */
  predicate SelectionShape(s: Selection)
  {
    DistinctNames(s.coOptima) && if s.status.Resolved? then s.optimum.Some? && s.coOptima != [] else s.optimum.None? && s.coOptima == []
  }

  function AddDecision(st: StoreState, id: Id, s: Selection): Result<StoreState>
  {
    if id in st.decisions then Err("duplicate decision")
    else if s.source !in st.problems then Err("unknown problem")
    else if !SelectionShape(s) || !DecisionOk(st.problems[s.source].candidates, IsCurrent(st, st.problems[s.source]), DecisionOf(id, s))
    then Err("decision disagrees with its problem")
    else Ok(st.(decisions := st.decisions[id := DecisionOf(id, s)]))
  }

  // ---------------------------------------------------------------- runs

  ghost function Apply(st: StoreState, step: Step): Result<StoreState>
  {
    match step
    case ConfigureVocabulary(added) => Configured(st, added)
    case Admit(items) => AdmitAll(st, items)
    case TakeSnapshot(id, parent) => Taken(st, id, parent)
    case Supersede(retired, replacement, snapshot) => Superseded(st, Supersession(retired, replacement, snapshot))
    case AdmitDerived(id, result) => Derived(st, id, result)
    case CreateScope(scope) => Created(st, scope)
    case EvaluateDecisionScope(id) => RunScope(st, id)
    case AdmitProblem(id, problem) => AddProblem(st, id, problem)
    case AdmitDecision(id, selection) => AddDecision(st, id, selection)
  }

  ghost function After(st: StoreState, step: Step): StoreState
  {
    var r := Apply(st, step);
    if r.Ok? then r.value else st
  }

  ghost function Run(st: StoreState, steps: seq<Step>): StoreState
    decreases |steps|
  {
    if steps == [] then st else Run(After(st, steps[0]), steps[1..])
  }

  function EmptyStore(): StoreState
  {
    StoreState(Vocabulary(map[], map[]), {}, {}, map[], map[], map[], map[], map[], map[], {}, map[], map[], map[], map[])
  }
}

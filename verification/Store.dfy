/** The store object: its fields and the steps that update them (src/atlas/store.py, `Store`). */
module Store {
  import opened Graph
  import opened Grounding
  import opened Lineage
  import opened LineageTheorems
  import opened LoadedStates
  import opened Model
  import opened Ordering
  import opened Problems
  import opened Reopening
  import opened RestoreClosure
  import opened Rules
  import Scopes
  import opened Selections
  import opened Statuses
  import opened StoreFrames
  import opened StoreGuarantees
  import opened StoreInvariants
  import opened StoreSteps
  import opened Supersessions
  import opened Traversal

  /** A step that succeeds publishes its result; a step that fails publishes nothing. */
  ghost predicate Publishes(before: StoreState, step: Step, ok: bool, after: StoreState)
  {
    ok == Apply(before, step).Ok? && after == After(before, step)
  }

  /** The loop of `admit`, over copies of the published maps. */
  method AdmitBatch(st: StoreState, items: seq<Item>) returns (r: Result<StoreState>)
    ensures r == AdmitAll(st, items)
  {
    var candidate := st;
    for i := 0 to |items|
      invariant AdmitAll(candidate, items[i..]) == AdmitAll(st, items)
    {
      var next := AdmitItem(candidate, items[i]);
      assert items[i..][0] == items[i] && items[i..][1..] == items[i + 1..];
      if next.Err? {
        return next;
      }
      candidate := next.value;
    }
    return Ok(candidate);
  }

  /** The tests of `supersede` on an edge, and the place of its row. */
  method MaySupersede(st: StoreState, edge: Supersession) returns (ok: bool)
    ensures ok <==> Superseded(st, edge) == Ok(WithEdge(st, edge))
    ensures !ok ==> Superseded(st, edge).Err?
  {
    if !Wellplaced(st, edge) || !RowFree(st, SupersessionRow, EdgeRow(edge.retired)) {
      return false;
    }
    LinksOfReplacements(st.supersessions[edge.retired := edge]);
    var acyclic := HasNoCycle(Replacements(st.supersessions[edge.retired := edge]));
    return acyclic && edge.retired !in st.supersessions;
  }

  class Store {
    var vocabulary: Vocabulary
    var descriptions: set<Id>
    var sources: set<Id>
    var rules: map<Id, Rule>
    var contexts: map<Id, Context>
    var snapshots: map<Id, Snapshot>
    var records: map<Id, Record>
    var derivations: map<Id, Derivation>
    var supersessions: map<Id, Supersession>
    var isolated: set<(RowKind, Id)>
    var decisionScopes: map<Id, DecisionScope>
    var decisionGroundings: map<Id, DecisionGrounding>
    var groundedDecisionProblems: map<Id, Problem>
    var decisions: map<Id, Decision>

    /** Opening a file: whatever its rows, the object holds what restore makes of them. */
    constructor (rows: Stored)
      ensures LoadedFrom(rows, View())
      ensures Valid() <==> InOrder(View())
    {
      var loaded := Load(rows);
      vocabulary, descriptions, sources, rules := loaded.vocabulary, loaded.descriptions, loaded.sources, loaded.rules;
      contexts, snapshots, records := loaded.contexts, loaded.snapshots, loaded.records;
      derivations, supersessions, isolated := loaded.derivations, loaded.supersessions, loaded.isolated;
      decisionScopes, decisionGroundings := loaded.scopes, loaded.groundings;
      groundedDecisionProblems, decisions := loaded.problems, loaded.decisions;
      new;
      assert View() == loaded;
      LoadedSoundExactly(rows, loaded);
      TrustedExactly(loaded);
    }

    function View(): StoreState
      reads this
    {
      StoreState(vocabulary, descriptions, sources, rules, contexts, snapshots, records, derivations, supersessions, isolated,
                 decisionScopes, decisionGroundings, groundedDecisionProblems, decisions)
    }

    /** The state satisfies every invariant, now and after any further steps (`TrustedExactly`). */
    ghost predicate Valid()
      reads this
    {
      Trusted(View())
    }

    method ConfigureVocabulary(added: Vocabulary) returns (ok: bool)
      requires Valid()
      modifies `vocabulary
      ensures Valid() && Publishes(old(View()), Step.ConfigureVocabulary(added), ok, View())
    {
      TrustAfter(View(), Step.ConfigureVocabulary(added));
      if !NoConflict(vocabulary.predicates, added.predicates) || !NoConflict(vocabulary.properties, added.properties) {
        return false;
      }
      vocabulary := Vocabulary(vocabulary.predicates + added.predicates, vocabulary.properties + added.properties);
      return true;
    }

    /** The batch is built up on copies and published whole. */
    method Admit(items: seq<Item>) returns (ok: bool)
      requires Valid()
      modifies `descriptions, `sources, `rules, `contexts, `records
      ensures Valid() && Publishes(old(View()), Step.Admit(items), ok, View())
    {
      TrustAfter(View(), Step.Admit(items));
      var candidate := AdmitBatch(View(), items);
      if candidate.Err? {
        return false;
      }
      AdmitAllOnly(View(), items);
      descriptions, sources, rules := candidate.value.descriptions, candidate.value.sources, candidate.value.rules;
      contexts, records := candidate.value.contexts, candidate.value.records;
      return true;
    }

    method TakeSnapshot(id: Id, parent: Option<Id>) returns (ok: bool)
      requires Valid()
      modifies `snapshots
      ensures Valid() && Publishes(old(View()), Step.TakeSnapshot(id, parent), ok, View())
    {
      TrustAfter(View(), Step.TakeSnapshot(id, parent));
      if id in snapshots || !RowFree(View(), SnapshotRow, id) || (parent.Some? && parent.value !in snapshots) {
        return false;
      }
      var predicates := LatestVersions(vocabulary.predicates.Keys);
      LatestUnique(vocabulary.predicates.Keys, predicates, Latest(vocabulary.predicates.Keys));
      var properties := LatestVersions(vocabulary.properties.Keys);
      LatestUnique(vocabulary.properties.Keys, properties, Latest(vocabulary.properties.Keys));
      snapshots := snapshots[id := Snapshot(id, parent, SortNames(records.Keys), predicates, properties, contexts, rules, descriptions)];
      return true;
    }

    method Supersede(retired: Id, replacement: Id, snapshot: Id) returns (ok: bool)
      requires Valid()
      modifies `supersessions
      ensures Valid() && Publishes(old(View()), Step.Supersede(retired, replacement, snapshot), ok, View())
    {
      TrustAfter(View(), Step.Supersede(retired, replacement, snapshot));
      var edge := Supersession(retired, replacement, snapshot);
      var admissible := MaySupersede(View(), edge);
      if !admissible {
        return false;
      }
      supersessions := supersessions[retired := edge];
      return true;
    }

    /** `_would_cycle`: one dependency already rests on the proposed identity. */
    method RestsAlready(derived: Id, dependencies: seq<Id>) returns (r: bool)
      ensures r <==> WouldCycle(View(), derived, dependencies)
    {
      var reachable := ListReachable(DependencyGraph(derivations), x => x != derived, dependencies);
      assert reachable.None? <==> ReachFrom(DependencyGraph(View().derivations), dependencies, derived);
      return reachable.None?;
    }

    method AdmitDerived(derived: Id, result: GroundingResult) returns (ok: bool)
      requires Valid()
      modifies `records, `derivations
      ensures Valid() && Publishes(old(View()), Step.AdmitDerived(derived, result), ok, View())
      ensures ok <==> DerivationFits(old(View()), derived, result)
    {
      TrustAfter(View(), Step.AdmitDerived(derived, result));
      if !DerivationFits(View(), derived, result) {
        return false;
      }
      SoundNoCycle(View(), derived, result);
      var cycle := RestsAlready(derived, result.dependencies);
      if cycle {
        return false;
      }
      records := records[derived := DerivedRelation(derived, result.conclusion.value)];
      derivations := derivations[derived := DerivationFrom(derived, result)];
      return true;
    }

    method CreateDecisionScope(scope: DecisionScope) returns (ok: bool)
      requires Valid()
      modifies `decisionScopes
      ensures Valid() && Publishes(old(View()), Step.CreateScope(scope), ok, View())
    {
      TrustAfter(View(), Step.CreateScope(scope));
      if scope.id in decisionScopes || !scope.current || !Scopes.ManifestOk(scope) || !Scopes.EnvironmentOk(View(), scope) {
        return false;
      }
      decisionScopes := decisionScopes[scope.id := scope];
      return true;
    }

    /** A stored scope with one rule always evaluates. */
    method EvaluateDecisionScope(id: Id) returns (ok: bool)
      requires Valid()
      modifies `decisionGroundings
      ensures Valid() && Publishes(old(View()), Step.EvaluateDecisionScope(id), ok, View())
      ensures ok <==> id in decisionScopes && id !in old(decisionGroundings) && |decisionScopes[id].rules| == 1
    {
      TrustAfter(View(), Step.EvaluateDecisionScope(id));
      if id !in decisionScopes || id in decisionGroundings {
        return false;
      }
      StoredEvaluates(View(), id);
      var grounding := Scopes.Evaluate(View(), decisionScopes[id]);
      RunScopePublishes(View(), id, grounding);
      if grounding.Err? {
        return false;
      }
      decisionGroundings := decisionGroundings[id := grounding.value];
      return true;
    }

    method AdmitGroundedDecisionProblem(id: Id, problem: Problem) returns (ok: bool)
      requires Valid()
      modifies `groundedDecisionProblems
      ensures Valid() && Publishes(old(View()), Step.AdmitProblem(id, problem), ok, View())
    {
      TrustAfter(View(), Step.AdmitProblem(id, problem));
      SoundParents(View());
      if id in groundedDecisionProblems {
        return false;
      }
      var expected := Build(View(), problem.scope);
      if expected != Some(problem) {
        return false;
      }
      groundedDecisionProblems := groundedDecisionProblems[id := problem];
      return true;
    }

    /** Every stored problem has a selection, and that selection is always admitted as a decision. */
    method SelectM1(id: Id) returns (r: Option<Selection>)
      requires Valid()
      ensures r.Some? <==> id in groundedDecisionProblems
      ensures r.Some? ==> r == Selections.SelectM1(id, groundedDecisionProblems[id], true)
      ensures r.Some? ==> forall decision :: decision !in decisions ==> AddDecision(View(), decision, r.value).Ok?
    {
      if id !in groundedDecisionProblems {
        return None;
      }
      StoredProblem(View(), id);
      r := Selections.SelectM1(id, groundedDecisionProblems[id], IsCurrent(View(), groundedDecisionProblems[id]));
      forall decision | decision !in decisions ensures AddDecision(View(), decision, r.value).Ok? {
        SelectionIsAdmitted(View(), id, decision);
      }
    }

    method AdmitM1Decision(id: Id, selection: Selection) returns (ok: bool)
      requires Valid()
      modifies `decisions
      ensures Valid() && Publishes(old(View()), Step.AdmitDecision(id, selection), ok, View())
    {
      TrustAfter(View(), Step.AdmitDecision(id, selection));
      if id in decisions || selection.source !in groundedDecisionProblems || !SelectionShape(selection) {
        return false;
      }
      var problem := groundedDecisionProblems[selection.source];
      if !DecisionOk(problem.candidates, IsCurrent(View(), problem), DecisionOf(id, selection)) {
        return false;
      }
      decisions := decisions[id := DecisionOf(id, selection)];
      return true;
    }

    method StatusOf(decision: Id, reference: Id) returns (r: Option<ArtifactStatus>)
      requires Valid()
      ensures r == Statuses.StatusOf(View(), decision, reference)
    {
      SoundParents(View());
      r := Status(View(), decision, reference);
    }
  }
}

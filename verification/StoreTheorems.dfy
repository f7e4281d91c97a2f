/** Whole runs of the store: what history keeps, what a replacement changes, and what survives reopening. */
module StoreTheorems {
  import Explanations
  import opened Graph
  import opened Grounding
  import opened Lineage
  import opened LineageTheorems
  import opened Model
  import opened Ordering
  import opened Problems
  import opened RestoreClosure
  import opened Rules
  import opened RuleTheorems
  import opened Scopes
  import opened Selections
  import opened Statuses
  import opened StatusFrames
  import opened StoreFrames
  import opened StoreInvariants
  import opened StoreSteps
  import opened SupersessionRestore
  import opened Supersessions
  import opened Traversal

  /** Whatever is done to an empty store, every invariant holds. */
  lemma ReachableSound(steps: seq<Step>)
    ensures Sound(Run(EmptyStore(), steps))
  {
    EmptySound();
    RunKeepsSound(EmptyStore(), steps);
  }

  // ---------------------------------------------------------------- runs without replacements

  /** However much is admitted, derived and snapshot, the view and the grounding at an earlier snapshot and
      the standing of an earlier decision stay what they were. */
  lemma HistoryStands(st: StoreState, steps: seq<Step>, snapshot: Id)
    requires Sound(st) && snapshot in st.snapshots && forall step :: step in steps ==> !step.Supersede?
    ensures var later := Run(st, steps);
            && snapshot in later.snapshots && Effective(later, snapshot) == Effective(st, snapshot)
            && (forall rule, bindings, context ::
                  Ground(later, rule, bindings, snapshot, context, Effective(later, snapshot))
                  == Ground(st, rule, bindings, snapshot, context, Effective(st, snapshot)))
            && forall decision :: decision in st.decisions ==> StatusOf(later, decision, snapshot) == StatusOf(st, decision, snapshot)
  {
    SoundHolds(st);
    RunExtends(st, steps);
    var later := Run(st, steps);
    EffectiveFrame(st, later, snapshot);
    forall rule, bindings, context
      ensures Ground(later, rule, bindings, snapshot, context, Effective(later, snapshot))
           == Ground(st, rule, bindings, snapshot, context, Effective(st, snapshot))
    {
      GroundFrame(st, later, rule, bindings, snapshot, context);
    }
    forall decision | decision in st.decisions ensures StatusOf(later, decision, snapshot) == StatusOf(st, decision, snapshot) {
      StatusFrame(st, later, decision, snapshot);
    }
  }

  // ---------------------------------------------------------------- staleness over any run

  /** `later` still knows every snapshot, proof, replacement, run, problem and decision of `st`. */
  ghost predicate Remembers(st: StoreState, later: StoreState)
  {
    && SubMap(st.snapshots, later.snapshots) && SubMap(st.derivations, later.derivations)
    && SubMap(st.supersessions, later.supersessions) && SubMap(st.groundings, later.groundings)
    && SubMap(st.problems, later.problems) && SubMap(st.decisions, later.decisions)
  }

  lemma ExtendsRemembers(st: StoreState, later: StoreState)
    requires Extends(st, later)
    ensures Remembers(st, later)
  {
  }

  lemma EdgeRemembers(st: StoreState, e: Supersession)
    requires e.retired !in st.supersessions
    ensures Remembers(st, WithEdge(st, e))
  {
  }

  lemma SupersededRemembers(st: StoreState, e: Supersession)
    requires Superseded(st, e).Ok?
    ensures Remembers(st, Superseded(st, e).value)
  {
    EdgeRemembers(st, e);
  }

  lemma StepRemembers(st: StoreState, step: Step)
    requires ProofsHaveRecords(st)
    ensures Remembers(st, After(st, step))
  {
    if !step.Supersede? {
      StepExtends(st, step);
      ExtendsRemembers(st, After(st, step));
    } else if Apply(st, step).Ok? {
      SupersededRemembers(st, Supersession(step.retired, step.replacement, step.snapshot));
    }
  }

  lemma {:induction false} RunRemembers(st: StoreState, steps: seq<Step>)
    requires ProofsHaveRecords(st)
    ensures Remembers(st, Run(st, steps))
    decreases |steps|
  {
    if steps != [] {
      StepRemembers(st, steps[0]);
      StepExtends(st, steps[0]);
      RunRemembers(After(st, steps[0]), steps[1..]);
    }
  }

  lemma SubMapReach(snapshots: map<Id, Snapshot>, later: map<Id, Snapshot>, a: Id, b: Id)
    requires SubMap(snapshots, later) && Descends(snapshots, a, b)
    ensures Descends(later, a, b)
  {
    assert Subgraph(ParentGraph(snapshots), ParentGraph(later));
    SubgraphReach(ParentGraph(snapshots), ParentGraph(later), a, b);
  }

  lemma StillRestsOn(st: StoreState, later: StoreState, p: Problem, x: Id)
    requires Remembers(st, later) && p.scope in st.groundings && RestsOn(st, p, x)
    ensures RestsOn(later, p, x)
  {
    assert Direct(later, p) == Direct(st, p);
    var s :| s in Direct(st, p) && Reach(DependencyGraph(st.derivations), s, x);
    assert Subgraph(DependencyGraph(st.derivations), DependencyGraph(later.derivations));
    SubgraphReach(DependencyGraph(st.derivations), DependencyGraph(later.derivations), s, x);
  }

  lemma StillReplaced(st: StoreState, later: StoreState, p: Problem, upper: Id, lower: Id)
    requires Remembers(st, later) && p.scope in st.groundings && Replaced(st, p, upper)
    requires Descends(later.snapshots, lower, upper)
    ensures Replaced(later, p, lower)
  {
    var x :| x in Visible(st, upper) && RestsOn(st, p, x);
    SubMapReach(st.snapshots, later.snapshots, upper, st.supersessions[x].snapshot);
    ReachTransitive(ParentGraph(later.snapshots), lower, upper, later.supersessions[x].snapshot);
    StillRestsOn(st, later, p, x);
  }

  /** A decision that is STALE at a snapshot is CURRENT there or below it never again, whatever happens. */
  lemma StaleNeverRecovers(st: StoreState, steps: seq<Step>, decision: Id, upper: Id, lower: Id)
    requires Sound(st) && upper in st.snapshots && StatusOf(st, decision, upper) == Some(Stale)
    requires lower in Run(st, steps).snapshots && Descends(Run(st, steps).snapshots, lower, upper)
    ensures StatusOf(Run(st, steps), decision, lower) in {Some(Stale), Some(Invalid)}
  {
    SoundHolds(st);
    RunRemembers(st, steps);
    StillReplaced(st, Run(st, steps), st.problems[st.decisions[decision].source], upper, lower);
  }

  // ---------------------------------------------------------------- one replacement

  lemma ProblemIgnoresEdges(st: StoreState, e: Supersession, p: Problem, effective: set<Id>)
    ensures ProblemOk(WithEdge(st, e), p, effective) <==> ProblemOk(st, p, effective)
  {
    var later := WithEdge(st, e);
    if p.scope in st.scopes && p.scope in st.groundings {
      var scope, g := st.scopes[p.scope], st.groundings[p.scope];
      CompletenessIgnoresEdges(st, e, scope, g, effective);
      if Complete(st, scope, g, effective) {
        var view := ViewOf(st, scope, g.current, effective);
        assert ViewOf(later, scope, g.current, effective) == view;
        forall c, o ensures CandidateOk(later, view, c, o) <==> CandidateOk(st, view, c, o) {
          assert Supports(later, c.candidate, view.version, view.ids, view.visible) == Supports(st, c.candidate, view.version, view.ids, view.visible);
        }
      }
    }
  }

  lemma CompletenessIgnoresEdges(st: StoreState, e: Supersession, scope: DecisionScope, g: DecisionGrounding, effective: set<Id>)
    ensures EnvironmentOk(WithEdge(st, e), scope) <==> EnvironmentOk(st, scope)
    ensures Completeness(WithEdge(st, e), scope, g, effective) == Completeness(st, scope, g, effective)
  {
    var later := WithEdge(st, e);
    forall o ensures ObservationOk(later, scope, g.current, o, effective) <==> ObservationOk(st, scope, g.current, o, effective) {
      if scope.snapshot in st.snapshots && scope.context in st.snapshots[scope.snapshot].contexts {
        DiscoverIgnoresEdges(st, e, scope, o.candidate, effective);
      }
    }
  }

  lemma DiscoverIgnoresEdges(st: StoreState, e: Supersession, scope: DecisionScope, candidate: Id, effective: set<Id>)
    requires scope.snapshot in st.snapshots && scope.context in st.snapshots[scope.snapshot].contexts
    ensures Discover(WithEdge(st, e), scope, candidate, effective) == Discover(st, scope, candidate, effective)
  {
    var later, snap := WithEdge(st, e), st.snapshots[scope.snapshot];
    if "realizes" in snap.predicates {
      var version := snap.predicates["realizes"];
      var matches := Realizing(st, scope, version, candidate, effective);
      assert Realizing(later, scope, version, candidate, effective) == matches;
      assert WithinScopes(later, matches, snap.contexts[scope.context].scopes) == WithinScopes(st, matches, snap.contexts[scope.context].scopes);
    }
  }

  /** The view at the snapshot as it becomes when an edge to `x` is made on another branch. */
  ghost function ViewWithout(st: StoreState, snapshot: Id, x: Id): set<Id>
    requires snapshot in st.snapshots
  {
    Lineage.Prune(st.derivations, Base(st, snapshot) - ({x} - Targets(st.supersessions, Visible(st, snapshot))))
  }

  /** The edge is made where neither the reference nor, above it, the decision's own snapshot can see it. */
  lemma SourceOffBranch(st: StoreState, e: Supersession, source: Id, reference: Id)
    requires source in st.snapshots && Descends(st.snapshots, reference, source)
    requires e.retired !in st.supersessions && !Descends(st.snapshots, reference, e.snapshot)
    ensures !Descends(st.snapshots, source, e.snapshot)
    ensures Effective(WithEdge(st, e), source) == ViewWithout(st, source, e.replacement)
  {
    if Descends(st.snapshots, source, e.snapshot) {
      ReachTransitive(ParentGraph(st.snapshots), reference, source, e.snapshot);
    } else {
      BaseOffBranch(st, e, source);
    }
  }

  lemma ValidIsAtSource(st: StoreState, p: Problem, effective: set<Id>)
    requires ProblemOk(st, p, effective)
    ensures p.snapshot == st.scopes[p.scope].snapshot
  {
  }

  lemma StandsExactly(st: StoreState, d: Decision, reference: Id)
    requires d.source in st.problems && st.problems[d.source].scope in st.scopes
    requires var p := st.problems[d.source];
             DecisionOk(p.candidates, IsCurrent(st, p), d) && Descends(st.snapshots, reference, st.scopes[p.scope].snapshot)
    ensures var p := st.problems[d.source]; Stands(st, d, reference) <==> ProblemOk(st, p, ScopeView(st, p.scope))
  {
    var p := st.problems[d.source];
    if ProblemOk(st, p, ScopeView(st, p.scope)) {
      ValidIsAtSource(st, p, ScopeView(st, p.scope));
    }
  }

  /** Below its own snapshot a filed decision is INVALID exactly when its problem is no longer valid. */
  lemma InvalidExactly(st: StoreState, decision: Id, reference: Id)
    requires DecisionsSound(st) && decision in st.decisions && reference in st.snapshots
    requires var p := st.problems[st.decisions[decision].source]; Descends(st.snapshots, reference, st.scopes[p.scope].snapshot)
    ensures var p := st.problems[st.decisions[decision].source];
            StatusOf(st, decision, reference) == Some(Invalid) <==> !ProblemOk(st, p, ScopeView(st, p.scope))
  {
    FiledDecision(st, decision);
    StandsExactly(st, st.decisions[decision], reference);
  }

  /**
   * A replacement made on another branch than the reference leaves the standing there alone exactly when the
   * reference is not on the decision's branch, or the decision's problem is as valid in the view that its own
   * snapshot gets as it is in the view it has.
   */
  lemma ElsewhereStatusExactly(st: StoreState, e: Supersession, decision: Id, reference: Id)
    requires Sound(st) && Superseded(st, e).Ok?
    requires decision in st.decisions && reference in st.snapshots && !Descends(st.snapshots, reference, e.snapshot)
    ensures var p := st.problems[st.decisions[decision].source];
            var source := st.scopes[p.scope].snapshot;
            StatusOf(WithEdge(st, e), decision, reference) == StatusOf(st, decision, reference)
            <==> || !Descends(st.snapshots, reference, source)
                 || (ProblemOk(st, p, ViewWithout(st, source, e.replacement)) <==> ProblemOk(st, p, Effective(st, source)))
  {
    var later := WithEdge(st, e);
    FiledDecision(st, decision);
    var p := st.problems[st.decisions[decision].source];
    var source := st.scopes[p.scope].snapshot;
    BaseOffBranch(st, e, reference);
    if Descends(st.snapshots, reference, source) {
      SourceOffBranch(st, e, source, reference);
      ProblemIgnoresEdges(st, e, p, ViewWithout(st, source, e.replacement));
      SupersededKeepsRest(st, e);
      InvalidExactly(st, decision, reference);
      InvalidExactly(later, decision, reference);
    }
    if !Descends(st.snapshots, reference, source)
       || (ProblemOk(st, p, ViewWithout(st, source, e.replacement)) <==> ProblemOk(st, p, Effective(st, source))) {
      SameStanding(st, later, decision, reference);
    }
  }

  /** In particular when the replacement is not effective at the decision's own snapshot, or is the target of a
      replacement visible there. */
  lemma ElsewhereKeepsStatus(st: StoreState, e: Supersession, decision: Id, reference: Id)
    requires Sound(st) && Superseded(st, e).Ok?
    requires decision in st.decisions && reference in st.snapshots && !Descends(st.snapshots, reference, e.snapshot)
    requires var source := st.scopes[st.problems[st.decisions[decision].source].scope].snapshot;
             e.replacement !in Effective(st, source) || e.replacement in Targets(st.supersessions, Visible(st, source))
    ensures StatusOf(WithEdge(st, e), decision, reference) == StatusOf(st, decision, reference)
  {
    FiledDecision(st, decision);
    var source := st.scopes[st.problems[st.decisions[decision].source].scope].snapshot;
    ElsewhereStatusExactly(st, e, decision, reference);
    if Descends(st.snapshots, reference, source) {
      SourceOffBranch(st, e, source, reference);
      EdgeOffBranchExactly(st, e, source);
    }
  }

  /** At its own snapshot a new edge becomes visible, and nothing else does. */
  lemma VisibleBelow(st: StoreState, e: Supersession)
    requires e.retired !in st.supersessions && e.snapshot in st.snapshots
    ensures Visible(WithEdge(st, e), e.snapshot) == Visible(st, e.snapshot) + {e.retired}
  {
    ReachSelf(ParentGraph(st.snapshots), e.snapshot);
  }

  /** The edge is made strictly below the snapshot and hides nothing there. */
  ghost predicate BelowUnseen(st: StoreState, e: Supersession, source: Id)
    requires source in st.snapshots
  {
    && !Descends(st.snapshots, source, e.snapshot)
    && (e.replacement !in Effective(st, source) || e.replacement in Targets(st.supersessions, Visible(st, source)))
  }

  /** A problem is as valid with an edge below its snapshot as without, unless the edge hides something there. */
  lemma StandsBelow(st: StoreState, e: Supersession, d: Decision)
    requires e.retired !in st.supersessions
    requires d.source in st.problems && st.problems[d.source].scope in st.scopes
    requires var source := st.scopes[st.problems[d.source].scope].snapshot;
             source in st.snapshots && BelowUnseen(st, e, source)
    ensures Stands(WithEdge(st, e), d, e.snapshot) <==> Stands(st, d, e.snapshot)
  {
    var p := st.problems[d.source];
    EdgeOffBranchExactly(st, e, st.scopes[p.scope].snapshot);
    ProblemIgnoresEdges(st, e, p, ScopeView(st, p.scope));
  }

  lemma ReplacedByEdge(st: StoreState, e: Supersession, p: Problem)
    requires e.retired !in st.supersessions && e.snapshot in st.snapshots && !Replaced(st, p, e.snapshot)
    ensures Replaced(WithEdge(st, e), p, e.snapshot) <==> exists trail :: LeadsTo(st, p, trail, e.retired)
  {
    var later := WithEdge(st, e);
    VisibleBelow(st, e);
    RestsOnExactly(st, p, e.retired);
    forall x ensures RestsOn(later, p, x) <==> RestsOn(st, p, x) {
    }
  }

  /**
   * Which replacements make a CURRENT decision STALE: one made strictly below the decision's snapshot that hides nothing
   * there does so, at the snapshot where it is made, exactly when a trail of dependencies leads to the retired record
   * from a relation that admitted a candidate, from a record that a grounding read or from a cost.
   */
  lemma ReplacedBelowExactly(st: StoreState, e: Supersession, decision: Id)
    requires e.retired !in st.supersessions && e.snapshot in st.snapshots
    requires StatusOf(st, decision, e.snapshot) == Some(Current)
    requires var p := st.problems[st.decisions[decision].source];
             p.snapshot in st.snapshots && BelowUnseen(st, e, p.snapshot)
    ensures var p := st.problems[st.decisions[decision].source];
            StatusOf(WithEdge(st, e), decision, e.snapshot)
            == if exists trail :: LeadsTo(st, p, trail, e.retired) then Some(Stale) else Some(Current)
  {
    var d := st.decisions[decision];
    var p := st.problems[d.source];
    ValidIsAtSource(st, p, ScopeView(st, p.scope));
    StandsBelow(st, e, d);
    ReplacedByEdge(st, e, p);
  }

  lemma SameStanding(st: StoreState, later: StoreState, decision: Id, reference: Id)
    requires later == st.(supersessions := later.supersessions)
    requires decision in st.decisions && st.decisions[decision].source in st.problems && reference in st.snapshots
    requires Visible(later, reference) == Visible(st, reference)
    requires var p := st.problems[st.decisions[decision].source];
             && p.scope in st.scopes
             && (Descends(st.snapshots, reference, st.scopes[p.scope].snapshot) ==>
                   (ProblemOk(later, p, ScopeView(later, p.scope)) <==> ProblemOk(st, p, ScopeView(st, p.scope))))
    ensures StatusOf(later, decision, reference) == StatusOf(st, decision, reference)
  {
    var p := st.problems[st.decisions[decision].source];
    forall x ensures RestsOn(later, p, x) <==> RestsOn(st, p, x) {
    }
  }

  /** Following replacements from any replaced record of a reachable snapshot ends at a record of that
      snapshot that is replaced no further, and effective unless it is derived. */
  lemma ReplacementEnds(st: StoreState, snapshot: Id, r: Id) returns (z: Id)
    requires Sound(st) && snapshot in st.snapshots && r in RecordSet(st.snapshots[snapshot]) && r in Visible(st, snapshot)
    ensures Reach(VisibleGraph(st.supersessions, Visible(st, snapshot)), r, z)
    ensures z !in Visible(st, snapshot) && z in Base(st, snapshot)
    ensures z !in st.derivations ==> z in Effective(st, snapshot)
  {
    SoundHolds(st);
    z := ReplacedEndsEffective(st, snapshot, r);
  }

  // ---------------------------------------------------------------- rules in reachable states

  lemma SnapshotRuleAdmitted(st: StoreState, snapshot: Id, rule: Id) returns (vocabulary: Vocabulary, body: RuleBody)
    requires Sound(st) && snapshot in st.snapshots && rule in st.snapshots[snapshot].rules
    ensures ExtendsVocabulary(vocabulary, st.vocabulary)
    ensures AdmitRule(vocabulary, st.snapshots[snapshot].rules[rule].version, body) == Ok(st.snapshots[snapshot].rules[rule])
  {
    assert SnapshotSound(st, snapshot) && RuleSound(st, rule);
    vocabulary, body :| ExtendsVocabulary(vocabulary, st.vocabulary)
                        && AdmitRule(vocabulary, st.rules[rule].version, body) == Ok(st.rules[rule]);
  }

  /** In every reachable state a rule of known operators, grounded over fitting bindings, is settled by a
      subset test or fails at most because of a version outside the snapshot or a value that is not exact. */
  lemma ReachableRulesAreTypeSafe(st: StoreState, snapshot: Id, rule: Id, bindings: map<string, Id>, context: Id, s: Reads)
    requires Sound(st) && Groundable(st, rule, bindings, snapshot, context)
    requires AllKnown(st.snapshots[snapshot].rules[rule].body.condition)
    ensures var snap := st.snapshots[snapshot];
            && snap.rules[rule].body.condition.op == "set_subset"
            && Agrees(Rules.Evaluate(WorldAt(st, snap, snap.contexts[context], Effective(st, snapshot)), bindings,
                                     snap.rules[rule].body.condition, s), Truthful)
  {
    var snap := st.snapshots[snapshot];
    var vocabulary, body := SnapshotRuleAdmitted(st, snapshot, rule);
    SoundHolds(st);
    AdmittedIsTypeSafe(WorldAt(st, snap, snap.contexts[context], Effective(st, snapshot)), bindings, vocabulary,
                       snap.rules[rule].version, body, s);
  }

  // ---------------------------------------------------------------- reopening

  /** No admitted relation names a proof that is not filed under its own identity. */
  ghost predicate NoBorrowedProofs(st: StoreState)
  {
    forall x :: x in st.records && st.records[x].Relation? && st.records[x].derivation.Some? ==> x in st.derivations
  }

  lemma NothingRejectedLocally(st: StoreState)
    requires KnowledgeSound(st) && NoBorrowedProofs(st)
    ensures LocallyRejected(Rows(st)) == {}
  {
    var c := Rows(st);
    forall x | x in c.records ensures !Faulty(c, x) {
      if c.records[x].Relation? && c.records[x].derivation.Some? {
        assert ProofSound(st, x);
      }
    }
    forall x | x in c.derivations ensures Paired(c, x) {
      assert ProofSound(st, x);
    }
  }

  lemma NothingCyclic(derivations: map<Id, Derivation>)
    requires Acyclic(DependencyGraph(derivations))
    ensures Acyclic(DerivationGraph(derivations))
  {
    assert Subgraph(DerivationGraph(derivations), DependencyGraph(derivations));
    SubgraphAcyclic(DerivationGraph(derivations), DependencyGraph(derivations));
  }

  lemma NothingRejected(st: StoreState, d: Id)
    requires KnowledgeSound(st) && Acyclic(DependencyGraph(st.derivations)) && NoBorrowedProofs(st)
    ensures !Rejected(Rows(st), d)
  {
    NothingRejectedLocally(st);
    NothingCyclic(st.derivations);
  }

  lemma HeldIsAvailable(st: StoreState, x: Id)
    requires KnowledgeSound(st) && NoBorrowedProofs(st) && x in st.records
    ensures Available(Rows(st), st.derivations.Keys, x)
  {
    if x in st.derivations {
      assert ProofSound(st, x);
    }
  }

  lemma EverythingConsistent(st: StoreState)
    requires KnowledgeSound(st) && Acyclic(DependencyGraph(st.derivations)) && NoBorrowedProofs(st)
    ensures Consistent(Rows(st), st.derivations.Keys, st.snapshots.Keys)
  {
    var c := Rows(st);
    forall d | d in st.derivations ensures !Rejected(c, d) && DerivationStands(c, st.derivations.Keys, st.snapshots.Keys, d) {
      NothingRejected(st, d);
      assert ProofSound(st, d);
      forall x | x in st.derivations[d].dependencies ensures Available(c, st.derivations.Keys, x) {
        HeldIsAvailable(st, x);
      }
    }
    forall s | s in st.snapshots ensures SnapshotStands(c, st.derivations.Keys, st.snapshots.Keys, s) {
      assert SnapshotSound(st, s);
      forall x | x in st.snapshots[s].records ensures Available(c, st.derivations.Keys, x) {
        assert x in RecordSet(st.snapshots[s]);
        HeldIsAvailable(st, x);
      }
    }
  }

  lemma BorrowedIsLost(st: StoreState, r: Restored, x: Id)
    requires Sound(st) && RestoredFrom(Rows(st), r)
    requires x in st.records && st.records[x].Relation? && st.records[x].derivation.Some? && x !in st.derivations
    ensures x !in r.records
  {
    var c := Rows(st);
    assert Keyed(c) by {
      assert forall d :: d in st.derivations ==> ProofSound(st, d);
      assert forall y :: y in st.records ==> RecordSound(st, y);
    }
    NoProofIsFaulty(c, x);
  }

  lemma GreatestCovers(c: Candidates, kept: set<Id>, snapshots: set<Id>, k: set<Id>, s: set<Id>)
    requires GreatestConsistent(c, kept, snapshots) && Consistent(c, k, s)
    ensures k <= kept && s <= snapshots
  {
  }

  lemma KeptWhole<V(!new)>(part: map<Id, V>, whole: map<Id, V>)
    requires SubMap(part, whole) && whole.Keys <= part.Keys
    ensures part == whole
  {
  }

  lemma NothingIsLost(st: StoreState, r: Restored)
    requires Sound(st) && RestoredFrom(Rows(st), r) && NoBorrowedProofs(st)
    ensures r.records == st.records && r.derivations == st.derivations && r.snapshots == st.snapshots
  {
    EverythingConsistent(st);
    GreatestCovers(Rows(st), r.derivations.Keys, r.snapshots.Keys, st.derivations.Keys, st.snapshots.Keys);
    forall x | x in st.records ensures x in r.records {
      HeldIsAvailable(st, x);
      AvailableIsKept(Rows(st), r, x);
    }
    KeptWhole(r.records, st.records);
    KeptWhole(r.derivations, st.derivations);
    KeptWhole(r.snapshots, st.snapshots);
  }

  /** What is consistent as a whole is restored as a whole. */
  lemma RestoredWhole(st: StoreState)
    requires KnowledgeSound(st) && Acyclic(DependencyGraph(st.derivations)) && NoBorrowedProofs(st)
    ensures RestoredFrom(Rows(st), Restored(st.records, st.derivations, st.snapshots, {}, {}))
  {
    EverythingConsistent(st);
    assert GreatestConsistent(Rows(st), st.derivations.Keys, st.snapshots.Keys);
    NothingRejectedLocally(st);
    FaultyIsMarked(Rows(st));
  }

  lemma AvailableIsKept(c: Candidates, r: Restored, x: Id)
    requires RestoredFrom(c, r) && Available(c, c.derivations.Keys, x) && c.derivations.Keys <= r.derivations.Keys
    ensures x in r.records
  {
  }

  /**
   * Given every record, proof and snapshot of a reachable state, the closure of `_validate_derivation_pairs`
   * keeps them all exactly when no admitted relation claims a proof that is not its own. The batch
   * admission does not test that claim.
   */
  lemma ClosureKeepsExactly(st: StoreState, r: Restored)
    requires Sound(st) && RestoredFrom(Rows(st), r)
    ensures r.records == st.records && r.derivations == st.derivations && r.snapshots == st.snapshots <==> NoBorrowedProofs(st)
  {
    if NoBorrowedProofs(st) {
      NothingIsLost(st, r);
    } else {
      var x :| x in st.records && st.records[x].Relation? && st.records[x].derivation.Some? && x !in st.derivations;
      BorrowedIsLost(st, r, x);
    }
  }

  /** A relation that names the proof of another one takes that pair down with it. */
  lemma BorrowerTakesOwnerDown(st: StoreState, r: Restored, x: Id, d: Id)
    requires Sound(st) && RestoredFrom(Rows(st), r)
    requires x in st.records && st.records[x].Relation? && st.records[x].derivation == Some(d) && d in st.derivations && d != x
    ensures x !in r.records && d !in r.derivations && d !in r.records
  {
    var c := Rows(st);
    assert ProofSound(st, d);
    assert Faulty(c, x) && d in MarksOf(c, x) && x in MarksOf(c, x);
    assert d in LocallyRejected(c) && x in LocallyRejected(c);
    assert x in st.derivations ==> ProofSound(st, x);
  }

  /** Such states are reachable by an ordinary admission. */
  lemma BorrowingIsReachable() returns (steps: seq<Step>)
    ensures !NoBorrowedProofs(Run(EmptyStore(), steps))
  {
    var relation := Relation("fact", "related", "1", ["thing"], Positive, One("here"), Exact, ["book"], Some("fact"));
    var items := [DescriptionItem("thing"), SourceItem("book"), RecordItem(relation)];
    var vocabulary := Vocabulary(map[("related", "1") := 1], map[]);
    steps := [ConfigureVocabulary(vocabulary), Admit(items)];
    var s0 := Configured(EmptyStore(), vocabulary).value;
    assert s0.vocabulary.predicates == vocabulary.predicates;
    var s1 := s0.(descriptions := s0.descriptions + {"thing"});
    var s2 := s1.(sources := s1.sources + {"book"});
    var s3 := s2.(records := s2.records["fact" := relation]);
    assert AdmitItem(s0, items[0]) == Ok(s1);
    assert AdmitItem(s1, items[1]) == Ok(s2);
    assert RecordFits(s2, relation);
    assert AdmitItem(s2, items[2]) == Ok(s3);
    assert AdmitAll(s3, []) == Ok(s3);
    assert items[2..] == [items[2]] && items[2..][1..] == [] && AdmitAll(s2, items[2..]) == Ok(s3);
    assert items[1..][1..] == items[2..] && AdmitAll(s1, items[1..]) == Ok(s3);
    assert AdmitAll(s0, items) == Ok(s3);
    assert After(EmptyStore(), steps[0]) == s0 && After(s0, steps[1]) == s3;
    assert steps[1..] == [steps[1]] && [steps[1]][1..] == [];
    assert Run(s0, [steps[1]]) == Run(s3, []);
    assert Run(EmptyStore(), steps) == s3;
    assert "fact" in s3.records && "fact" !in s3.derivations;
  }

  // ---------------------------------------------------------------- explanations in reachable states

  lemma RestsOnRecords(st: StoreState, x: Id, y: Id)
    requires KnowledgeSound(st) && x in st.records && Reach(DependencyGraph(st.derivations), x, y)
    ensures y in st.records
  {
    SoundHolds(st);
    assert Closed(DependencyGraph(st.derivations), st.records.Keys);
    ClosedReach(DependencyGraph(st.derivations), st.records.Keys, x, y);
  }

  lemma UsedAreRecords(st: StoreState, p: Problem, effective: set<Id>, i: nat)
    requires ProblemOk(st, p, effective) && i < |p.candidates|
    ensures forall x :: x in p.candidates[i].result.dependencies ==> x in st.records
  {
    var scope, g := st.scopes[p.scope], st.groundings[p.scope];
    assert CandidateOk(st, ViewOf(st, scope, g.current, effective), p.candidates[i], g.observations[i]);
    assert g.observations[i] in g.observations;
    assert ObservationOk(st, scope, g.current, g.observations[i], effective);
  }

  /**
   * In a reachable state without borrowed proofs a stored decision can be explained exactly when its
   * problem still passes its validator; the explanation is refused only for an optimum below 1.
   */
  lemma ReachableIsExplainable(st: StoreState, decision: Id)
    requires Sound(st) && NoBorrowedProofs(st) && decision in st.decisions
    ensures var p := st.problems[st.decisions[decision].source];
            Explanations.Explainable(st, decision) <==> ProblemOk(st, p, ScopeView(st, p.scope))
  {
    FiledDecision(st, decision);
    var p := st.problems[st.decisions[decision].source];
    if ProblemOk(st, p, ScopeView(st, p.scope)) {
      forall i | 0 <= i < |p.candidates| ensures Explanations.DependenciesPresent(st, p.candidates[i]) {
        UsedAreRecords(st, p, ScopeView(st, p.scope), i);
        ClosurePresent(st, p.candidates[i]);
      }
    }
  }

  lemma ClosurePresent(st: StoreState, c: Candidate)
    requires KnowledgeSound(st) && NoBorrowedProofs(st) && forall x :: x in c.result.dependencies ==> x in st.records
    ensures Explanations.DependenciesPresent(st, c)
  {
    forall x | ReachFrom(DependencyGraph(st.derivations), c.result.dependencies, x) ensures Explanations.Present(st, x) {
      var s :| s in c.result.dependencies && Reach(DependencyGraph(st.derivations), s, x);
      RestsOnRecords(st, s, x);
    }
  }

  /** One row for each replacement. */
  ghost predicate RowsOfEdges(edges: map<Id, Supersession>, claims: seq<Claim>)
  {
    && (forall c :: c in claims ==> c.edge.retired in edges && edges[c.edge.retired] == c.edge)
    && forall r :: r in edges ==> |ClaimsOf(claims, r)| == 1
  }

  lemma EachEdgeUnique(edges: map<Id, Supersession>, claims: seq<Claim>)
    requires RowsOfEdges(edges, claims)
    ensures UniqueEdges(claims) == edges
  {
    forall r | r in edges ensures r in Retirees(claims) && UniqueEdge(claims, r) == edges[r] {
      ClaimsOfMembers(claims, r);
      var c := ClaimsOf(claims, r)[0];
      assert c in ClaimsOf(claims, r);
      assert c in claims && c.edge.retired == r;
    }
  }

  lemma PublishedWhole(claims: seq<Claim>)
    requires forall r, c :: !LeadsToCycle(Replacements(UniqueEdges(claims)), r, c)
    ensures Published(claims) == UniqueEdges(claims)
  {
    PublishedSpec(claims);
    assert SubMap(Published(claims), UniqueEdges(claims));
    KeptWhole(Published(claims), UniqueEdges(claims));
  }

  /** Rows of a cycle-free relation are all published again, whatever their order. */
  lemma EdgesPublished(edges: map<Id, Supersession>, claims: seq<Claim>)
    requires Acyclic(ReplacementGraph(edges)) && RowsOfEdges(edges, claims)
    ensures Published(claims) == edges
  {
    EachEdgeUnique(edges, claims);
    LinksOfReplacements(edges);
    assert forall r, c :: !LeadsToCycle(Replacements(edges), r, c);
    PublishedWhole(claims);
  }
}

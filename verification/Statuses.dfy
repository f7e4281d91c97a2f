/** The standing of a stored decision relative to a snapshot (src/atlas/store.py, `status_of` and
    `_decision_dependency_closure`). */
module Statuses {
  import opened Graph
  import opened Lineage
  import opened LineageTheorems
  import opened Model
  import opened Ordering
  import opened Problems
  import opened Rules
  import opened Scopes
  import opened Selections
  import opened Traversal

  // ---------------------------------------------------------------- what a decision rests on

  function IncludedOf(observations: seq<Observation>): seq<Id>
  {
    if observations == [] then []
    else (if observations[0].evidence.Some? then observations[0].evidence.value.included else []) + IncludedOf(observations[1..])
  }

  function UsedBy(c: Candidate): seq<Id>
  {
    c.result.dependencies + if c.objective.Some? then [c.objective.value.record] else []
  }

  function UsedByAll(candidates: seq<Candidate>): seq<Id>
  {
    if candidates == [] then [] else UsedBy(candidates[0]) + UsedByAll(candidates[1..])
  }

  /** The discovered relations that admitted a candidate, the records its grounding read and its cost. */
  function Direct(st: StoreState, p: Problem): seq<Id>
  {
    (if p.scope in st.groundings then IncludedOf(st.groundings[p.scope].observations) else []) + UsedByAll(p.candidates)
  }

  ghost predicate RestsOn(st: StoreState, p: Problem, x: Id)
  {
    ReachFrom(DependencyGraph(st.derivations), Direct(st, p), x)
  }

  /** A relation that some observation's evidence includes, a dependency of some candidate's grounding, or the record of
      some candidate's cost. */
  ghost predicate BasedOn(st: StoreState, p: Problem, x: Id)
  {
    || (p.scope in st.groundings
        && exists o :: o in st.groundings[p.scope].observations && o.evidence.Some? && x in o.evidence.value.included)
    || exists c :: c in p.candidates
         && (x in c.result.dependencies || (c.objective.Some? && c.objective.value.record == x))
  }

  /** Every step is a dependency of the proof of the step before. */
  ghost predicate DependencyChain(derivations: map<Id, Derivation>, trail: seq<Id>)
  {
    |trail| > 1 ==> trail[0] in derivations && trail[1] in derivations[trail[0]].dependencies && DependencyChain(derivations, trail[1..])
  }

  /** The trail starts from what the decision is based on and comes to `x`. */
  ghost predicate LeadsTo(st: StoreState, p: Problem, trail: seq<Id>, x: Id)
  {
    trail != [] && BasedOn(st, p, trail[0]) && trail[|trail| - 1] == x && DependencyChain(st.derivations, trail)
  }

  lemma {:induction false} IncludedExactly(observations: seq<Observation>, x: Id)
    ensures x in IncludedOf(observations) <==> exists o :: o in observations && o.evidence.Some? && x in o.evidence.value.included
  {
    if observations != [] {
      IncludedExactly(observations[1..], x);
      assert forall o :: o in observations <==> o == observations[0] || o in observations[1..];
    }
  }

  lemma {:induction false} UsedExactly(candidates: seq<Candidate>, x: Id)
    ensures x in UsedByAll(candidates)
       <==> exists c :: c in candidates && (x in c.result.dependencies || (c.objective.Some? && c.objective.value.record == x))
  {
    if candidates != [] {
      UsedExactly(candidates[1..], x);
      assert forall c :: c in candidates <==> c == candidates[0] || c in candidates[1..];
    }
  }

  lemma DirectExactly(st: StoreState, p: Problem, x: Id)
    ensures x in Direct(st, p) <==> BasedOn(st, p, x)
  {
    if p.scope in st.groundings {
      IncludedExactly(st.groundings[p.scope].observations, x);
    }
    UsedExactly(p.candidates, x);
  }

  lemma {:induction false} PathIsChain(derivations: map<Id, Derivation>, trail: seq<Id>, x: Id)
    requires trail != []
    ensures Path(DependencyGraph(derivations), trail[0], trail[1..], x)
       <==> DependencyChain(derivations, trail) && trail[|trail| - 1] == x
    decreases |trail|
  {
    if |trail| > 1 {
      PathIsChain(derivations, trail[1..], x);
      assert trail[1..][0] == trail[1];
    }
  }

  lemma RestsAlong(st: StoreState, p: Problem, x: Id) returns (trail: seq<Id>)
    requires RestsOn(st, p, x)
    ensures LeadsTo(st, p, trail, x)
  {
    var from :| from in Direct(st, p) && Reach(DependencyGraph(st.derivations), from, x);
    var steps :| Path(DependencyGraph(st.derivations), from, steps, x);
    trail := [from] + steps;
    assert trail[1..] == steps;
    PathIsChain(st.derivations, trail, x);
    DirectExactly(st, p, from);
  }

  lemma AlongRests(st: StoreState, p: Problem, trail: seq<Id>, x: Id)
    requires LeadsTo(st, p, trail, x)
    ensures RestsOn(st, p, x)
  {
    PathIsChain(st.derivations, trail, x);
    DirectExactly(st, p, trail[0]);
    assert Reach(DependencyGraph(st.derivations), trail[0], x);
  }

  lemma RestsOnExactly(st: StoreState, p: Problem, x: Id)
    ensures RestsOn(st, p, x) <==> exists trail :: LeadsTo(st, p, trail, x)
  {
    if RestsOn(st, p, x) {
      var trail := RestsAlong(st, p, x);
    }
    if trail :| LeadsTo(st, p, trail, x) {
      AlongRests(st, p, trail, x);
    }
  }

  method DependencyClosure(st: StoreState, p: Problem) returns (closure: seq<Id>)
    ensures DistinctNames(closure) && forall x :: x in closure <==> RestsOn(st, p, x)
    ensures forall x :: x in closure <==> exists trail :: LeadsTo(st, p, trail, x)
  {
    forall x ensures RestsOn(st, p, x) <==> exists trail :: LeadsTo(st, p, trail, x) {
      RestsOnExactly(st, p, x);
    }
    var r := ListReachable(DependencyGraph(st.derivations), _ => true, Direct(st, p));
    closure := r.value;
  }

  // ---------------------------------------------------------------- the standing

  predicate IsCurrent(st: StoreState, p: Problem)
  {
    p.scope in st.groundings && st.groundings[p.scope].current
  }

  /** The stored decision and its problem pass both validators, and the reference lies on the problem's branch. */
  ghost predicate Stands(st: StoreState, d: Decision, reference: Id)
  {
    && d.source in st.problems
    && var p := st.problems[d.source];
    && ProblemOk(st, p, ScopeView(st, p.scope))
    && DecisionOk(p.candidates, IsCurrent(st, p), d)
    && Descends(st.snapshots, reference, p.snapshot)
  }

  ghost predicate Replaced(st: StoreState, p: Problem, reference: Id)
  {
    exists x :: x in Visible(st, reference) && RestsOn(st, p, x)
  }

  /** `status_of`; no status when the reference is unknown and was not set aside. */
  ghost function StatusOf(st: StoreState, decision: Id, reference: Id): Option<ArtifactStatus>
  {
    if reference !in st.snapshots then if (SnapshotRow, reference) in st.isolated then Some(Invalid) else None
    else if decision !in st.decisions || !Stands(st, st.decisions[decision], reference) then Some(Invalid)
    else if Replaced(st, st.problems[st.decisions[decision].source], reference) then Some(Stale)
    else Some(Current)
  }

  method Status(st: StoreState, decision: Id, reference: Id) returns (r: Option<ArtifactStatus>)
    requires ParentsPresent(st.snapshots)
    ensures r == StatusOf(st, decision, reference)
  {
    if reference !in st.snapshots {
      return if (SnapshotRow, reference) in st.isolated then Some(Invalid) else None;
    }
    if decision !in st.decisions || st.decisions[decision].source !in st.problems {
      return Some(Invalid);
    }
    var d := st.decisions[decision];
    var p := st.problems[d.source];
    if p.scope !in st.scopes || st.scopes[p.scope].snapshot !in st.snapshots {
      return Some(Invalid);
    }
    var effective := EffectiveSet(st, st.scopes[p.scope].snapshot);
    if !ProblemOk(st, p, effective) || !DecisionOk(p.candidates, IsCurrent(st, p), d) {
      return Some(Invalid);
    }
    var descends := SnapshotDescendsFrom(st.snapshots, reference, p.snapshot);
    if !descends {
      return Some(Invalid);
    }
    var closure := DependencyClosure(st, p);
    var visible := VisibleSupersessions(st, reference);
    if exists x :: x in closure && x in visible {
      return Some(Stale);
    }
    return Some(Current);
  }

  // ---------------------------------------------------------------- the closure of a valid problem is effective

  lemma {:induction false} UsedMember(candidates: seq<Candidate>, x: Id)
    requires x in UsedByAll(candidates)
    ensures exists i :: 0 <= i < |candidates| && x in UsedBy(candidates[i])
  {
    if x in UsedBy(candidates[0]) {
    } else {
      UsedMember(candidates[1..], x);
      var i :| 0 <= i < |candidates| - 1 && x in UsedBy(candidates[1..][i]);
      assert x in UsedBy(candidates[i + 1]);
    }
  }

  lemma IncludedIsEffective(st: StoreState, scope: DecisionScope, o: Observation, effective: set<Id>, x: Id)
    requires EvidenceOk(st, scope, o, effective) && o.evidence.Some? && x in o.evidence.value.included
    ensures x in effective
  {
  }

  lemma UsedIsEffective(st: StoreState, p: Problem, effective: set<Id>, i: nat, x: Id)
    requires ProblemOk(st, p, effective) && IsCurrent(st, p)
    requires i < |p.candidates| && x in UsedBy(p.candidates[i])
    ensures x in effective
  {
    var scope, g := st.scopes[p.scope], st.groundings[p.scope];
    var o := g.observations[i];
    assert CandidateOk(st, ViewOf(st, scope, g.current, effective), p.candidates[i], o);
    assert o in g.observations;
    assert ObservationOk(st, scope, true, o, effective);
  }

  /** Everything a valid problem rests on is effective at its own snapshot. */
  lemma ClosureIsEffective(st: StoreState, p: Problem, x: Id)
    requires ProblemOk(st, p, ScopeView(st, p.scope)) && IsCurrent(st, p) && RestsOn(st, p, x)
    ensures p.snapshot in st.snapshots && x in Effective(st, p.snapshot)
  {
    var effective := Effective(st, p.snapshot);
    var scope, g := st.scopes[p.scope], st.groundings[p.scope];
    var s :| s in Direct(st, p) && Reach(DependencyGraph(st.derivations), s, x);
    if s in IncludedOf(g.observations) {
      IncludedExactly(g.observations, s);
      var o :| o in g.observations && o.evidence.Some? && s in o.evidence.value.included;
      assert ObservationOk(st, scope, true, o, effective);
      IncludedIsEffective(st, scope, o, effective, s);
    } else {
      UsedMember(p.candidates, s);
      var i :| 0 <= i < |p.candidates| && s in UsedBy(p.candidates[i]);
      UsedIsEffective(st, p, effective, i, s);
    }
    EffectiveClosed(st, p.snapshot, s, x);
  }

  // ---------------------------------------------------------------- staleness on the snapshot tree

  /** Two ancestors of one snapshot lie one above the other. */
  lemma {:induction false} AncestorsChain(snapshots: map<Id, Snapshot>, lower: Id, steps: seq<Id>, a: Id, b: Id)
    requires Path(ParentGraph(snapshots), lower, steps, a) && Descends(snapshots, lower, b)
    ensures Descends(snapshots, a, b) || Descends(snapshots, b, a)
    decreases |steps|
  {
    var g := ParentGraph(snapshots);
    if steps == [] || lower == b {
      assert Reach(g, lower, a);
    } else {
      var toB :| Path(g, lower, toB, b);
      assert toB[0] == steps[0] && Path(g, toB[0], toB[1..], b);
      AncestorsChain(snapshots, steps[0], steps[1..], a, b);
    }
  }

  /** The edge was made strictly below `upper`, and at or above `lower`. */
  ghost predicate MadeBetween(st: StoreState, e: Supersession, upper: Id, lower: Id)
  {
    && Descends(st.snapshots, lower, e.snapshot) && Descends(st.snapshots, e.snapshot, upper)
    && !Descends(st.snapshots, upper, e.snapshot)
  }

  /**
   * For a run under the current schema a standing decision is STALE at a snapshot exactly when a trail of dependencies
   * from a relation that admitted a candidate, from a record its grounding read or from its cost comes to something
   * that was replaced strictly below its own snapshot and at or above the reference.
   */
  lemma StaleExactly(st: StoreState, decision: Id, reference: Id)
    requires reference in st.snapshots && decision in st.decisions && Stands(st, st.decisions[decision], reference)
    requires IsCurrent(st, st.problems[st.decisions[decision].source])
    ensures var p := st.problems[st.decisions[decision].source];
            && StatusOf(st, decision, reference).value in {Current, Stale}
            && (StatusOf(st, decision, reference) == Some(Stale)
                <==> exists x, trail :: LeadsTo(st, p, trail, x) && x in st.supersessions
                                        && MadeBetween(st, st.supersessions[x], p.snapshot, reference))
  {
    var p := st.problems[st.decisions[decision].source];
    ReplacedBetween(st, p, reference);
    forall x ensures RestsOn(st, p, x) <==> exists trail :: LeadsTo(st, p, trail, x) {
      RestsOnExactly(st, p, x);
    }
  }

  lemma ReplacedBetween(st: StoreState, p: Problem, reference: Id)
    requires ProblemOk(st, p, ScopeView(st, p.scope)) && IsCurrent(st, p) && Descends(st.snapshots, reference, p.snapshot)
    ensures Replaced(st, p, reference)
       <==> exists x :: x in st.supersessions && RestsOn(st, p, x) && MadeBetween(st, st.supersessions[x], p.snapshot, reference)
  {
    forall x | x in Visible(st, reference) && RestsOn(st, p, x)
      ensures x in st.supersessions && MadeBetween(st, st.supersessions[x], p.snapshot, reference)
    {
      ClosureIsEffective(st, p, x);
      assert Effective(st, p.snapshot) <= Base(st, p.snapshot);
      var steps :| Path(ParentGraph(st.snapshots), reference, steps, p.snapshot);
      AncestorsChain(st.snapshots, reference, steps, p.snapshot, st.supersessions[x].snapshot);
    }
  }

  /** A decision under the current schema is never STALE at its own snapshot. */
  lemma NeverStaleAtSource(st: StoreState, decision: Id)
    requires decision in st.decisions && st.decisions[decision].source in st.problems
    requires IsCurrent(st, st.problems[st.decisions[decision].source])
    ensures StatusOf(st, decision, st.problems[st.decisions[decision].source].snapshot) != Some(Stale)
  {
    var p := st.problems[st.decisions[decision].source];
    if StatusOf(st, decision, p.snapshot) == Some(Stale) {
      var x :| x in Visible(st, p.snapshot) && RestsOn(st, p, x);
      ClosureIsEffective(st, p, x);
    }
  }

  /** CURRENT at a snapshot is CURRENT at every snapshot below it where no further replacement is visible. */
  lemma CurrentBelow(st: StoreState, decision: Id, upper: Id, lower: Id)
    requires upper in st.snapshots && lower in st.snapshots && StatusOf(st, decision, upper) == Some(Current)
    requires Descends(st.snapshots, lower, upper) && Visible(st, lower) == Visible(st, upper)
    ensures StatusOf(st, decision, lower) == Some(Current)
  {
    var p := st.problems[st.decisions[decision].source];
    ReachTransitive(ParentGraph(st.snapshots), lower, upper, p.snapshot);
  }

  /** STALE at a snapshot is STALE at every snapshot below it. */
  lemma StaleBelow(st: StoreState, decision: Id, upper: Id, lower: Id)
    requires StatusOf(st, decision, upper) == Some(Stale) && upper in st.snapshots
    requires lower in st.snapshots && Descends(st.snapshots, lower, upper)
    ensures StatusOf(st, decision, lower) == Some(Stale)
  {
    var p := st.problems[st.decisions[decision].source];
    ReachTransitive(ParentGraph(st.snapshots), lower, upper, p.snapshot);
    VisibleMonotone(st, lower, upper);
  }
}

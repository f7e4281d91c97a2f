/**
 * Restoring derivations: the pairing of relations with their proofs, the rejection of cycles, and the
 * alternating invalidation of derivations and snapshots (src/atlas/store.py, `_validate_derivation_pairs`).
 */
module RestoreClosure {
  import opened Graph
  import opened Model
  import opened Ordering
  import Tarjan

  /** The rows decoded so far, before anything is published. */
  datatype Candidates = Candidates(records: map<Id, Record>, derivations: map<Id, Derivation>,
                                   snapshots: map<Id, Snapshot>, sources: set<Id>)

  /** Restore files every record and every derivation under its own identity. */
  ghost predicate Keyed(c: Candidates)
  {
    && (forall d :: d in c.derivations ==> c.derivations[d].id == d)
    && (forall x :: x in c.records ==> c.records[x].id == x)
  }

  // ---------------------------------------------------------------- one relation and its proof

  function BindingOf(bindings: seq<(string, Id)>, name: string): Option<Id>
  {
    if bindings == [] then None
    else
      var later := BindingOf(bindings[1..], name);
      if later.Some? then later else if bindings[0].0 == name then Some(bindings[0].1) else None
  }

  function Names(bindings: seq<(string, Id)>): seq<string>
  {
    seq(|bindings|, i requires 0 <= i < |bindings| => bindings[i].0)
  }

  function BoundTo(bindings: seq<(string, Id)>, names: seq<string>): seq<Option<Id>>
  {
    seq(|names|, i requires 0 <= i < |names| => BindingOf(bindings, names[i]))
  }

  function Somes(ids: seq<Id>): seq<Option<Id>>
  {
    seq(|ids|, i requires 0 <= i < |ids| => Some(ids[i]))
  }

  function SourcesOf(records: map<Id, Record>, ids: seq<Id>): set<Id>
  {
    set x, s | x in ids && x in records && s in records[x].sources :: s
  }

  function ScopeOf(scopes: seq<string>): Scope
  {
    if |scopes| == 1 then One(scopes[0]) else Many(scopes)
  }

  /** `_derivation_error` finds nothing wrong with the relation and the proof it names. */
  predicate ProofMatches(c: Candidates, relation: Record)
    requires relation.Relation? && relation.derivation.Some?
  {
    && relation.derivation.value in c.derivations
    && var proof := c.derivations[relation.derivation.value];
    && proof.id == relation.id
    && proof.snapshot in c.snapshots
    && var snapshot := c.snapshots[proof.snapshot];
    && proof.context in snapshot.contexts
    && proof.rule in snapshot.rules && snapshot.rules[proof.rule].version == proof.ruleVersion
    && var body := snapshot.rules[proof.rule].body;
    && Names(proof.bindings) == body.participants
    && (forall b :: b in proof.bindings ==> b.1 in snapshot.descriptions)
    && BoundTo(proof.bindings, body.head.participants) == Somes(relation.participants)
    && body.head.predicateId == relation.predicateId && body.head.version == relation.version
    && body.head.polarity == relation.polarity
    && (forall d :: d in proof.dependencies ==> d in c.records && d in snapshot.records)
    && relation.scope == ScopeOf(snapshot.contexts[proof.context].scopes)
    && (set s | s in relation.sources) == SourcesOf(c.records, proof.dependencies)
    && relation.epistemic.Exact?
    && forall s :: s in relation.sources ==> s in c.sources
  }

  // ---------------------------------------------------------------- what a proof proves

  /** Of several pairs for one name the last one holds. */
  ghost predicate Binds(bindings: seq<(string, Id)>, name: string, id: Id)
  {
    exists k :: 0 <= k < |bindings| && bindings[k] == (name, id) && forall j :: k < j < |bindings| ==> bindings[j].0 != name
  }

  /** One pair for each participant of the rule, in their order and for descriptions that the snapshot knows. */
  ghost predicate BindsAll(bindings: seq<(string, Id)>, participants: seq<string>, descriptions: set<Id>)
  {
    && |bindings| == |participants|
    && forall i :: 0 <= i < |bindings| ==> bindings[i].0 == participants[i] && bindings[i].1 in descriptions
  }

  /** The relation is the head with what is bound to its participants, one by one. */
  ghost predicate IsHead(relation: Record, head: Head, bindings: seq<(string, Id)>)
    requires relation.Relation?
  {
    && relation.predicateId == head.predicateId && relation.version == head.version && relation.polarity == head.polarity
    && |relation.participants| == |head.participants|
    && forall i :: 0 <= i < |relation.participants| ==> Binds(bindings, head.participants[i], relation.participants[i])
  }

  /** A context of one scope gives this scope, any other all of its scopes. */
  ghost predicate ScopedBy(scope: Scope, names: seq<string>)
  {
    match scope
    case One(name) => names == [name]
    case Many(several) => several == names && |names| != 1
  }

  /** The sources are exactly those of the dependencies. */
  ghost predicate SourcedBy(sources: seq<Id>, dependencies: seq<Id>, records: map<Id, Record>)
  {
    forall s :: s in sources <==> exists d :: d in dependencies && d in records && s in records[d].sources
  }

  /** The relation is what the rule of the proof concludes, in the context of the proof, from its bindings and
      dependencies, all of them as the snapshot has fixed them. */
  ghost predicate Proves(proof: Derivation, snapshot: Snapshot, records: map<Id, Record>, relation: Record)
    requires relation.Relation?
  {
    && proof.rule in snapshot.rules && proof.context in snapshot.contexts
    && snapshot.rules[proof.rule].version == proof.ruleVersion
    && BindsAll(proof.bindings, snapshot.rules[proof.rule].body.participants, snapshot.descriptions)
    && IsHead(relation, snapshot.rules[proof.rule].body.head, proof.bindings)
    && ScopedBy(relation.scope, snapshot.contexts[proof.context].scopes)
    && (forall d :: d in proof.dependencies ==> d in records && d in snapshot.records)
    && SourcedBy(relation.sources, proof.dependencies, records)
    && relation.epistemic == Exact
  }

  /** The relation names a proof of its own identity, made at a snapshot, that proves it. */
  ghost predicate Proved(c: Candidates, relation: Record)
    requires relation.Relation? && relation.derivation.Some?
  {
    && relation.derivation.value in c.derivations
    && var proof := c.derivations[relation.derivation.value];
    && proof.id == relation.id && proof.snapshot in c.snapshots
    && Proves(proof, c.snapshots[proof.snapshot], c.records, relation)
    && forall s :: s in relation.sources ==> s in c.sources
  }

  lemma {:induction false} BindingExactly(bindings: seq<(string, Id)>, name: string, id: Id)
    ensures BindingOf(bindings, name) == Some(id) <==> Binds(bindings, name, id)
  {
    if bindings != [] {
      var rest := bindings[1..];
      BindingExactly(rest, name, id);
      if Binds(rest, name, id) {
        var k :| 0 <= k < |rest| && rest[k] == (name, id) && forall j :: k < j < |rest| ==> rest[j].0 != name;
        assert bindings[k + 1] == (name, id) && forall j :: k + 1 < j < |bindings| ==> bindings[j] == rest[j - 1];
      } else {
        BindingIsLast(bindings, name, id);
      }
    }
  }

  lemma BindingIsLast(bindings: seq<(string, Id)>, name: string, id: Id)
    requires bindings != [] && !Binds(bindings[1..], name, id)
    ensures BindingOf(bindings[1..], name).None? && bindings[0] == (name, id) ==> Binds(bindings, name, id)
    ensures Binds(bindings, name, id) ==> BindingOf(bindings[1..], name).None? && bindings[0] == (name, id)
  {
    var rest := bindings[1..];
    BindingNone(rest, name);
    assert forall j :: 0 < j < |bindings| ==> bindings[j] == rest[j - 1];
    if Binds(bindings, name, id) {
      var k :| 0 <= k < |bindings| && bindings[k] == (name, id) && forall j :: k < j < |bindings| ==> bindings[j].0 != name;
      assert forall j :: 0 <= j < |rest| ==> rest[j] == bindings[j + 1];
    }
  }

  lemma {:induction false} BindingNone(bindings: seq<(string, Id)>, name: string)
    ensures BindingOf(bindings, name).None? <==> forall j :: 0 <= j < |bindings| ==> bindings[j].0 != name
  {
    if bindings != [] {
      BindingNone(bindings[1..], name);
      assert forall j :: 0 < j < |bindings| ==> bindings[j] == bindings[1..][j - 1];
    }
  }

  lemma BoundExactly(bindings: seq<(string, Id)>, names: seq<string>, ids: seq<Id>)
    ensures BoundTo(bindings, names) == Somes(ids)
       <==> |ids| == |names| && forall i :: 0 <= i < |ids| ==> Binds(bindings, names[i], ids[i])
  {
    if |ids| == |names| {
      forall i | 0 <= i < |ids| ensures BoundTo(bindings, names)[i] == Somes(ids)[i] <==> Binds(bindings, names[i], ids[i]) {
        BindingExactly(bindings, names[i], ids[i]);
      }
    } else {
      assert |BoundTo(bindings, names)| != |Somes(ids)|;
    }
  }

  lemma NamesExactly(bindings: seq<(string, Id)>, participants: seq<string>, descriptions: set<Id>)
    ensures BindsAll(bindings, participants, descriptions)
       <==> Names(bindings) == participants && forall b :: b in bindings ==> b.1 in descriptions
  {
    if Names(bindings) == participants {
      assert forall i :: 0 <= i < |bindings| ==> Names(bindings)[i] == bindings[i].0;
    }
    if BindsAll(bindings, participants, descriptions) {
      assert Names(bindings) == participants;
    }
  }

  lemma ScopeExactly(scope: Scope, names: seq<string>)
    ensures scope == ScopeOf(names) <==> ScopedBy(scope, names)
  {
  }

  lemma SourcesExactly(sources: seq<Id>, dependencies: seq<Id>, records: map<Id, Record>)
    ensures (set s | s in sources) == SourcesOf(records, dependencies) <==> SourcedBy(sources, dependencies, records)
  {
    var named, drawn := (set s | s in sources), SourcesOf(records, dependencies);
    assert forall s :: s in drawn <==> exists d :: d in dependencies && d in records && s in records[d].sources;
    if SourcedBy(sources, dependencies, records) {
      assert forall s :: s in named <==> s in drawn;
    }
    if named == drawn {
      assert forall s :: s in sources <==> s in drawn;
    }
  }

  /** The same in the terms of the code. */
  predicate ProvesInCode(proof: Derivation, snapshot: Snapshot, records: map<Id, Record>, relation: Record)
    requires relation.Relation?
  {
    && proof.context in snapshot.contexts
    && proof.rule in snapshot.rules && snapshot.rules[proof.rule].version == proof.ruleVersion
    && var body := snapshot.rules[proof.rule].body;
    && Names(proof.bindings) == body.participants
    && (forall b :: b in proof.bindings ==> b.1 in snapshot.descriptions)
    && BoundTo(proof.bindings, body.head.participants) == Somes(relation.participants)
    && body.head.predicateId == relation.predicateId && body.head.version == relation.version
    && body.head.polarity == relation.polarity
    && (forall d :: d in proof.dependencies ==> d in records && d in snapshot.records)
    && relation.scope == ScopeOf(snapshot.contexts[proof.context].scopes)
    && (set s | s in relation.sources) == SourcesOf(records, proof.dependencies)
    && relation.epistemic.Exact?
  }

  lemma ProvesExactly(proof: Derivation, snapshot: Snapshot, records: map<Id, Record>, relation: Record)
    requires relation.Relation?
    ensures ProvesInCode(proof, snapshot, records, relation) <==> Proves(proof, snapshot, records, relation)
  {
    if proof.rule in snapshot.rules && proof.context in snapshot.contexts {
      var body := snapshot.rules[proof.rule].body;
      NamesExactly(proof.bindings, body.participants, snapshot.descriptions);
      BoundExactly(proof.bindings, body.head.participants, relation.participants);
      ScopeExactly(relation.scope, snapshot.contexts[proof.context].scopes);
      SourcesExactly(relation.sources, proof.dependencies, records);
    }
  }

  /** The test of a relation and the proof it names passes exactly what the proof proves. */
  lemma MatchesExactly(c: Candidates, relation: Record)
    requires relation.Relation? && relation.derivation.Some?
    ensures ProofMatches(c, relation) <==> Proved(c, relation)
  {
    if relation.derivation.value in c.derivations {
      var proof := c.derivations[relation.derivation.value];
      if proof.snapshot in c.snapshots {
        ProvesExactly(proof, c.snapshots[proof.snapshot], c.records, relation);
      }
    }
  }

  // ---------------------------------------------------------------- local rejection

  predicate Faulty(c: Candidates, x: Id)
  {
    x in c.records && c.records[x].Relation? && c.records[x].derivation.Some? && !ProofMatches(c, c.records[x])
  }

  /** The relation filed under `d` names the proof filed under `d`. */
  predicate Paired(c: Candidates, d: Id)
  {
    d in c.records && c.records[d].Relation? && c.records[d].derivation == Some(d)
  }

  /** What one faulty relation marks: itself and the proof it names. */
  function MarksOf(c: Candidates, x: Id): set<Id>
    requires x in c.records
  {
    if !Faulty(c, x) then {}
    else if c.records[x].derivation.value in c.derivations then {x, c.records[x].derivation.value}
    else {x}
  }

  function MarksOfAll(c: Candidates, ids: set<Id>): set<Id>
    requires ids <= c.records.Keys
  {
    set x, y | x in ids && y in MarksOf(c, x) :: y
  }

  /** The ids rejected by the two local passes: faulty relations, the proofs they name, unpaired proofs. */
  function LocallyRejected(c: Candidates): set<Id>
  {
    MarksOfAll(c, c.records.Keys) + set d | d in c.derivations && !Paired(c, d)
  }

  /** The relation filed under `x` claims a proof and is not proved by it. */
  ghost predicate Unproved(c: Candidates, x: Id)
  {
    x in c.records && c.records[x].Relation? && c.records[x].derivation.Some? && !Proved(c, c.records[x])
  }

  /** An unproved relation, the proof that one names, or a proof that the relation of its identity does not name. */
  ghost predicate RejectedAlone(c: Candidates, x: Id)
  {
    || Unproved(c, x)
    || (x in c.derivations && exists y :: Unproved(c, y) && c.records[y].derivation == Some(x))
    || (x in c.derivations && !(x in c.records && c.records[x].Relation? && c.records[x].derivation == Some(x)))
  }

  lemma RejectedAloneExactly(c: Candidates)
    ensures forall x :: x in LocallyRejected(c) <==> RejectedAlone(c, x)
  {
    forall y ensures Faulty(c, y) <==> Unproved(c, y) {
      if y in c.records && c.records[y].Relation? && c.records[y].derivation.Some? {
        MatchesExactly(c, c.records[y]);
      }
    }
    forall x ensures x in LocallyRejected(c) <==> RejectedAlone(c, x) {
      if x in MarksOfAll(c, c.records.Keys) {
        var y :| y in c.records && x in MarksOf(c, y);
      }
      if y :| Unproved(c, y) && (x == y || (x in c.derivations && c.records[y].derivation == Some(x))) {
        assert x in MarksOf(c, y);
      }
    }
  }

  /** Derivations and the derivations they depend on; facts are leaves and left out. */
  function DerivationGraph(derivations: map<Id, Derivation>): Digraph
  {
    map d | d in derivations :: Among(derivations[d].dependencies, derivations.Keys)
  }

  ghost predicate Rejected(c: Candidates, x: Id)
  {
    x in LocallyRejected(c) || OnCycle(DerivationGraph(c.derivations), x)
  }

  // ---------------------------------------------------------------- consistent sets of candidates

  /** A dependency that may be relied on when exactly the derivations in `kept` are. */
  predicate Available(c: Candidates, kept: set<Id>, x: Id)
  {
    && x in c.records
    && (if x in c.derivations then x in kept && Paired(c, x)
        else c.records[x].Property? || c.records[x].derivation.None?)
  }

  ghost predicate DerivationStands(c: Candidates, kept: set<Id>, snapshots: set<Id>, d: Id)
    requires d in c.derivations
  {
    && (forall x :: x in c.derivations[d].dependencies ==> Available(c, kept, x))
    && c.derivations[d].snapshot in snapshots
  }

  ghost predicate SnapshotStands(c: Candidates, kept: set<Id>, snapshots: set<Id>, s: Id)
    requires s in c.snapshots
  {
    && (c.snapshots[s].parent.Some? ==> c.snapshots[s].parent.value in snapshots)
    && forall x :: x in c.snapshots[s].records ==> Available(c, kept, x)
  }

  /** A set of derivations and a set of snapshots that justify each other and avoid everything rejected. */
  ghost predicate Consistent(c: Candidates, kept: set<Id>, snapshots: set<Id>)
  {
    && kept <= c.derivations.Keys && snapshots <= c.snapshots.Keys
    && (forall d :: d in kept ==> !Rejected(c, d) && DerivationStands(c, kept, snapshots, d))
    && forall s :: s in snapshots ==> SnapshotStands(c, kept, snapshots, s)
  }

  ghost predicate GreatestConsistent(c: Candidates, kept: set<Id>, snapshots: set<Id>)
  {
    && Consistent(c, kept, snapshots)
    && forall k, s :: Consistent(c, k, s) ==> k <= kept && s <= snapshots
  }

  // ---------------------------------------------------------------- marking is safe

  /** Nothing that some consistent choice could keep has been marked. */
  ghost predicate Safe(c: Candidates, invalid: set<Id>, invalidSnapshots: set<Id>)
  {
    forall k, s :: Consistent(c, k, s) ==> k !! invalid && s !! invalidSnapshots
  }

  /** `dependency_is_valid` at the present marking. */
  predicate DependencyIsValid(c: Candidates, invalid: set<Id>, x: Id)
  {
    && x in c.records
    && (if x in c.derivations then x !in invalid && Paired(c, x)
        else c.records[x].Property? || c.records[x].derivation.None?)
  }

  lemma AvailableIsValid(c: Candidates, invalid: set<Id>, invalidSnapshots: set<Id>, k: set<Id>, s: set<Id>, x: Id)
    requires Safe(c, invalid, invalidSnapshots) && Consistent(c, k, s) && Available(c, k, x)
    ensures DependencyIsValid(c, invalid, x)
  {
  }

  lemma MarkDerivation(c: Candidates, invalid: set<Id>, invalidSnapshots: set<Id>, d: Id, x: Id)
    requires Safe(c, invalid, invalidSnapshots) && d in c.derivations
    requires x in c.derivations[d].dependencies && !DependencyIsValid(c, invalid, x)
    ensures Safe(c, invalid + {d}, invalidSnapshots)
  {
    forall k, s | Consistent(c, k, s) ensures d !in k {
      if d in k {
        assert DerivationStands(c, k, s, d);
        AvailableIsValid(c, invalid, invalidSnapshots, k, s, x);
      }
    }
  }

  predicate SnapshotBroken(c: Candidates, invalid: set<Id>, invalidSnapshots: set<Id>, s: Id)
    requires s in c.snapshots
  {
    || (c.snapshots[s].parent.Some? && c.snapshots[s].parent.value in invalidSnapshots)
    || exists x :: x in c.snapshots[s].records && (x !in c.records || x in invalid)
  }

  lemma MarkSnapshot(c: Candidates, invalid: set<Id>, invalidSnapshots: set<Id>, s: Id)
    requires Safe(c, invalid, invalidSnapshots) && s in c.snapshots
    requires forall x :: x in invalid && x !in c.derivations ==> Faulty(c, x)
    requires SnapshotBroken(c, invalid, invalidSnapshots, s)
    ensures Safe(c, invalid, invalidSnapshots + {s})
  {
    forall k, t | Consistent(c, k, t) ensures s !in t {
      if s in t {
        assert SnapshotStands(c, k, t, s);
        if !(c.snapshots[s].parent.Some? && c.snapshots[s].parent.value in invalidSnapshots) {
          var x :| x in c.snapshots[s].records && (x !in c.records || x in invalid);
          AvailableIsValid(c, invalid, invalidSnapshots, k, t, x);
        }
      }
    }
  }

  lemma MarkOrphan(c: Candidates, invalid: set<Id>, invalidSnapshots: set<Id>, d: Id)
    requires Safe(c, invalid, invalidSnapshots) && d in c.derivations
    requires c.derivations[d].snapshot in invalidSnapshots
    ensures Safe(c, invalid + {d}, invalidSnapshots)
  {
  }

  lemma StartSafe(c: Candidates, invalid: set<Id>, invalidSnapshots: set<Id>)
    requires forall x :: x in invalid ==> Rejected(c, x)
    requires forall s :: s in invalidSnapshots ==>
               s in c.snapshots && c.snapshots[s].parent.Some? && c.snapshots[s].parent.value !in c.snapshots
    ensures Safe(c, invalid, invalidSnapshots)
  {
    forall k, t | Consistent(c, k, t) ensures k !! invalid && t !! invalidSnapshots {
      assert forall s :: s in t ==> SnapshotStands(c, k, t, s);
    }
  }

  // ---------------------------------------------------------------- the alternating passes

  /** Apart from derivations only faulty relations are ever marked. */
  ghost predicate Claimed(c: Candidates, invalid: set<Id>)
  {
    forall x :: x in invalid && x !in c.derivations ==> Faulty(c, x)
  }

  ghost predicate DependenciesValid(c: Candidates, invalid: set<Id>, d: Id)
    requires d in c.derivations
  {
    forall x :: x in c.derivations[d].dependencies ==> DependencyIsValid(c, invalid, x)
  }

  method MarkDerivations(c: Candidates, invalid: set<Id>, ghost invalidSnapshots: set<Id>) returns (r: set<Id>)
    requires Safe(c, invalid, invalidSnapshots) && Claimed(c, invalid)
    ensures Safe(c, r, invalidSnapshots) && Claimed(c, r)
    ensures invalid <= r && r - invalid <= c.derivations.Keys
    ensures r == invalid ==> forall d :: d in c.derivations && d !in r ==> DependenciesValid(c, r, d)
  {
    r := invalid;
    var pending := c.derivations.Keys;
    while pending != {}
      invariant pending <= c.derivations.Keys && invalid <= r && r - invalid <= c.derivations.Keys
      invariant Safe(c, r, invalidSnapshots) && Claimed(c, r)
      invariant r == invalid ==> forall d :: d in c.derivations && d !in pending && d !in r ==> DependenciesValid(c, r, d)
      decreases |pending|
    {
      var d := Least(pending);
      if d !in r && exists x :: x in c.derivations[d].dependencies && !DependencyIsValid(c, r, x) {
        ghost var x :| x in c.derivations[d].dependencies && !DependencyIsValid(c, r, x);
        MarkDerivation(c, r, invalidSnapshots, d, x);
        r := r + {d};
      }
      pending := pending - {d};
    }
  }

  method MarkSnapshots(c: Candidates, invalid: set<Id>, invalidSnapshots: set<Id>) returns (r: set<Id>)
    requires Safe(c, invalid, invalidSnapshots) && Claimed(c, invalid)
    ensures Safe(c, invalid, r)
    ensures invalidSnapshots <= r && r - invalidSnapshots <= c.snapshots.Keys
    ensures r == invalidSnapshots ==> forall s :: s in c.snapshots && s !in r ==> !SnapshotBroken(c, invalid, r, s)
  {
    r := invalidSnapshots;
    var pending := c.snapshots.Keys;
    while pending != {}
      invariant pending <= c.snapshots.Keys && invalidSnapshots <= r && r - invalidSnapshots <= c.snapshots.Keys
      invariant Safe(c, invalid, r)
      invariant r == invalidSnapshots ==> forall s :: s in c.snapshots && s !in pending && s !in r ==> !SnapshotBroken(c, invalid, r, s)
      decreases |pending|
    {
      var s := Least(pending);
      if s !in r && SnapshotBroken(c, invalid, r, s) {
        MarkSnapshot(c, invalid, r, s);
        r := r + {s};
      }
      pending := pending - {s};
    }
  }

  method MarkOrphans(c: Candidates, invalid: set<Id>, invalidSnapshots: set<Id>) returns (r: set<Id>)
    requires Safe(c, invalid, invalidSnapshots) && Claimed(c, invalid)
    ensures Safe(c, r, invalidSnapshots) && Claimed(c, r)
    ensures invalid <= r && r - invalid <= c.derivations.Keys
    ensures forall d :: d in c.derivations && d !in r ==> c.derivations[d].snapshot !in invalidSnapshots
  {
    r := invalid;
    var pending := c.derivations.Keys;
    while pending != {}
      invariant pending <= c.derivations.Keys && invalid <= r && r - invalid <= c.derivations.Keys
      invariant Safe(c, r, invalidSnapshots) && Claimed(c, r)
      invariant forall d :: d in c.derivations && d !in pending && d !in r ==> c.derivations[d].snapshot !in invalidSnapshots
      decreases |pending|
    {
      var d := Least(pending);
      if d !in r && c.derivations[d].snapshot in invalidSnapshots {
        MarkOrphan(c, r, invalidSnapshots, d);
        r := r + {d};
      }
      pending := pending - {d};
    }
  }

  // ---------------------------------------------------------------- the whole restoration

  /** The first two loops. */
  method RejectLocally(c: Candidates) returns (invalid: set<Id>)
    requires Keyed(c)
    ensures invalid == LocallyRejected(c)
    ensures forall x :: x in invalid <==> RejectedAlone(c, x)
  {
    RejectedAloneExactly(c);
    invalid := {};
    var pending := c.records.Keys;
    while pending != {}
      invariant pending <= c.records.Keys && invalid == MarksOfAll(c, c.records.Keys - pending)
      decreases |pending|
    {
      var x := Least(pending);
      MarksExtend(c, pending, x);
      var marks := MarkRelation(c, x);
      invalid := invalid + marks;
      pending := pending - {x};
    }
    invalid := invalid + set d | d in c.derivations && !Paired(c, d);
  }

  method MarkRelation(c: Candidates, x: Id) returns (marks: set<Id>)
    requires Keyed(c) && x in c.records
    ensures marks == MarksOf(c, x)
  {
    marks := {};
    if Faulty(c, x) {
      marks := {x};
      if c.records[x].derivation.value in c.derivations {
        marks := marks + {c.derivations[c.records[x].derivation.value].id};
      }
    }
  }

  lemma MarksExtend(c: Candidates, pending: set<Id>, x: Id)
    requires pending <= c.records.Keys && x in pending
    ensures MarksOfAll(c, c.records.Keys - (pending - {x})) == MarksOfAll(c, c.records.Keys - pending) + MarksOf(c, x)
  {
  }

  /** The fixed point at which no pass marks anything. */
  lemma StableIsGreatest(c: Candidates, invalid: set<Id>, invalidSnapshots: set<Id>)
    requires Keyed(c) && Safe(c, invalid, invalidSnapshots) && Claimed(c, invalid)
    requires forall x :: Rejected(c, x) ==> x in invalid
    requires forall s :: s in c.snapshots && c.snapshots[s].parent.Some? && c.snapshots[s].parent.value !in c.snapshots
               ==> s in invalidSnapshots
    requires forall d :: d in c.derivations && d !in invalid ==> DependenciesValid(c, invalid, d)
    requires forall s :: s in c.snapshots && s !in invalidSnapshots ==> !SnapshotBroken(c, invalid, invalidSnapshots, s)
    requires forall d :: d in c.derivations && d !in invalid ==> c.derivations[d].snapshot !in invalidSnapshots
    ensures GreatestConsistent(c, c.derivations.Keys - invalid, c.snapshots.Keys - invalidSnapshots)
  {
    var kept, snapshots := c.derivations.Keys - invalid, c.snapshots.Keys - invalidSnapshots;
    forall d | d in kept ensures !Rejected(c, d) && DerivationStands(c, kept, snapshots, d) {
      KeptIsPaired(c, d);
      assert DependenciesValid(c, invalid, d);
    }
    forall s | s in snapshots ensures SnapshotStands(c, kept, snapshots, s) {
      assert !SnapshotBroken(c, invalid, invalidSnapshots, s);
      forall x | x in c.snapshots[s].records ensures Available(c, kept, x) {
        if x in c.derivations {
          KeptIsPaired(c, x);
        } else if c.records[x].Relation? && c.records[x].derivation.Some? {
          NoProofIsFaulty(c, x);
        }
      }
    }
  }

  lemma FaultyIsMarked(c: Candidates)
    ensures forall x :: x in c.records && Faulty(c, x) ==> x in LocallyRejected(c)
  {
    assert forall x :: x in c.records && Faulty(c, x) ==> x in MarksOf(c, x);
  }

  /** What is not locally rejected is paired, and its proof refers to a known snapshot. */
  lemma KeptIsPaired(c: Candidates, d: Id)
    requires d in c.derivations && d !in LocallyRejected(c)
    ensures Paired(c, d) && ProofMatches(c, c.records[d]) && c.derivations[d].snapshot in c.snapshots
  {
    assert Paired(c, d);
    FaultyIsMarked(c);
  }

  /** A relation that claims a proof while none is filed under its own name is faulty. */
  lemma NoProofIsFaulty(c: Candidates, x: Id)
    requires Keyed(c) && x in c.records && x !in c.derivations
    requires c.records[x].Relation? && c.records[x].derivation.Some?
    ensures Faulty(c, x) && x in LocallyRejected(c)
  {
    assert x in MarksOf(c, x);
  }

  /** What restore publishes; the isolated rows are the marked ones. */
  datatype Restored = Restored(records: map<Id, Record>, derivations: map<Id, Derivation>, snapshots: map<Id, Snapshot>,
                               invalid: set<Id>, invalidSnapshots: set<Id>)

  /** The outcome of a restoration: the greatest consistent choice of derivations and snapshots, and every
      record except the relations of dropped derivations and the faulty ones. */
  ghost predicate RestoredFrom(c: Candidates, r: Restored)
  {
    && GreatestConsistent(c, r.derivations.Keys, r.snapshots.Keys)
    && (forall d :: d in r.derivations ==> d in c.derivations && r.derivations[d] == c.derivations[d])
    && (forall s :: s in r.snapshots ==> s in c.snapshots && r.snapshots[s] == c.snapshots[s])
    && (forall x :: x in r.records ==> x in c.records && r.records[x] == c.records[x])
    && (forall x :: x in c.records ==>
          (x in r.records <==> if x in c.derivations then x in r.derivations else !Faulty(c, x)))
  }

  /** The relation of the same identity is published too, and is what the proof proves at its published snapshot. */
  ghost predicate ProofPublished(r: Restored, d: Id)
    requires d in r.derivations
  {
    && d in r.records && r.records[d].Relation? && r.derivations[d].snapshot in r.snapshots
    && Proves(r.derivations[d], r.snapshots[r.derivations[d].snapshot], r.records, r.records[d])
  }

  /** `_validate_derivation_pairs`. */
  method ValidateDerivationPairs(c: Candidates) returns (r: Restored)
    requires Keyed(c)
    ensures RestoredFrom(c, r)
    ensures r.invalid == (c.derivations.Keys - r.derivations.Keys) + (c.records.Keys - r.records.Keys)
    ensures r.invalidSnapshots == c.snapshots.Keys - r.snapshots.Keys
    ensures forall d :: d in r.derivations ==> ProofPublished(r, d)
  {
    var invalid := RejectLocally(c);
    var graph := DerivationGraph(c.derivations);
    assert Tarjan.Proper(graph);
    var cyclic := Tarjan.CycleIds(graph);
    invalid := invalid + cyclic;
    var invalidSnapshots := set s | s in c.snapshots && c.snapshots[s].parent.Some?
                                    && c.snapshots[s].parent.value !in c.snapshots;
    StartClaimed(c, invalid, cyclic);
    StartSafe(c, invalid, invalidSnapshots);
    invalid, invalidSnapshots := Alternate(c, invalid, invalidSnapshots);
    r := Restored(c.records - invalid, c.derivations - invalid, c.snapshots - invalidSnapshots, invalid, invalidSnapshots);
    PublishRestored(c, invalid, invalidSnapshots);
    forall d | d in r.derivations ensures ProofPublished(r, d) {
      PublishedProves(c, r, d);
    }
  }

  lemma StartClaimed(c: Candidates, invalid: set<Id>, cyclic: set<Id>)
    requires invalid == LocallyRejected(c) + cyclic
    requires forall x :: x in cyclic <==> OnCycle(DerivationGraph(c.derivations), x)
    ensures Claimed(c, invalid) && forall x :: x in invalid <==> Rejected(c, x)
  {
    forall x | x in LocallyRejected(c) && x !in c.derivations ensures Faulty(c, x) {
      var y :| y in c.records && x in MarksOf(c, y);
    }
  }

  lemma PublishRestored(c: Candidates, invalid: set<Id>, invalidSnapshots: set<Id>)
    requires GreatestConsistent(c, c.derivations.Keys - invalid, c.snapshots.Keys - invalidSnapshots)
    requires Claimed(c, invalid) && LocallyRejected(c) <= invalid && invalidSnapshots <= c.snapshots.Keys
    ensures RestoredFrom(c, Restored(c.records - invalid, c.derivations - invalid, c.snapshots - invalidSnapshots,
                                     invalid, invalidSnapshots))
    ensures invalid == (c.derivations.Keys - (c.derivations - invalid).Keys) + (c.records.Keys - (c.records - invalid).Keys)
  {
    assert (c.derivations - invalid).Keys == c.derivations.Keys - invalid;
    assert (c.snapshots - invalidSnapshots).Keys == c.snapshots.Keys - invalidSnapshots;
    forall x | x in c.records && x !in c.derivations ensures x in invalid <==> Faulty(c, x) {
      if Faulty(c, x) {
        assert x in MarksOf(c, x);
      }
    }
  }

  /** The alternation of the three passes until nothing changes. */
  method Alternate(c: Candidates, invalid0: set<Id>, invalidSnapshots0: set<Id>)
    returns (invalid: set<Id>, invalidSnapshots: set<Id>)
    requires Keyed(c) && Safe(c, invalid0, invalidSnapshots0) && Claimed(c, invalid0)
    requires forall x :: Rejected(c, x) ==> x in invalid0
    requires forall s :: s in c.snapshots && c.snapshots[s].parent.Some? && c.snapshots[s].parent.value !in c.snapshots
               ==> s in invalidSnapshots0
    requires invalidSnapshots0 <= c.snapshots.Keys
    ensures Claimed(c, invalid) && invalid0 <= invalid && invalidSnapshots <= c.snapshots.Keys
    ensures GreatestConsistent(c, c.derivations.Keys - invalid, c.snapshots.Keys - invalidSnapshots)
  {
    invalid, invalidSnapshots := invalid0, invalidSnapshots0;
    while true
      invariant Safe(c, invalid, invalidSnapshots) && Claimed(c, invalid)
      invariant invalid0 <= invalid && invalidSnapshots0 <= invalidSnapshots <= c.snapshots.Keys
      decreases |c.derivations.Keys - invalid| + |c.snapshots.Keys - invalidSnapshots|
    {
      var invalidBefore, snapshotsBefore := invalid, invalidSnapshots;
      invalid := MarkDerivations(c, invalid, invalidSnapshots);
      ghost var afterFirst := invalid;
      invalidSnapshots := MarkSnapshots(c, invalid, invalidSnapshots);
      invalid := MarkOrphans(c, invalid, invalidSnapshots);
      if invalid == invalidBefore && invalidSnapshots == snapshotsBefore {
        StableIsGreatest(c, invalid, invalidSnapshots);
        break;
      }
      Progress(c.derivations.Keys, invalidBefore, invalid);
      Progress(c.snapshots.Keys, snapshotsBefore, invalidSnapshots);
    }
  }

  lemma Progress(keys: set<Id>, before: set<Id>, after: set<Id>)
    requires before <= after && after - before <= keys
    ensures |keys - after| <= |keys - before|
    ensures before != after ==> |keys - after| < |keys - before|
  {
    assert keys - before == (keys - after) + (after - before);
  }

  // ---------------------------------------------------------------- what is published

  /** The published maps close on each other, and no published derivation rests on itself. */
  lemma PublishedSound(c: Candidates, r: Restored)
    requires Keyed(c) && RestoredFrom(c, r)
    ensures forall d :: d in r.derivations ==>
              && d in r.records && r.records[d].Relation? && r.records[d].derivation == Some(d)
              && ProofMatches(c, r.records[d])
              && r.derivations[d].snapshot in r.snapshots
              && forall x :: x in r.derivations[d].dependencies ==> x in r.records
    ensures forall s :: s in r.snapshots ==>
              && (r.snapshots[s].parent.Some? ==> r.snapshots[s].parent.value in r.snapshots)
              && forall x :: x in r.snapshots[s].records ==> x in r.records
    ensures forall x :: x in r.records && r.records[x].Relation? && r.records[x].derivation.Some? ==>
              r.records[x].derivation == Some(x) && x in r.derivations
    ensures Acyclic(DerivationGraph(r.derivations))
  {
    forall x | Available(c, r.derivations.Keys, x) ensures x in r.records {
    }
    forall d | d in r.derivations ensures DerivationStands(c, r.derivations.Keys, r.snapshots.Keys, d)
                                          && Paired(c, d) && ProofMatches(c, c.records[d]) {
      assert !Rejected(c, d);
      KeptIsPaired(c, d);
    }
    forall s | s in r.snapshots ensures SnapshotStands(c, r.derivations.Keys, r.snapshots.Keys, s) {
    }
    forall x | x in r.records && r.records[x].Relation? && r.records[x].derivation.Some?
      ensures r.records[x].derivation == Some(x) && x in r.derivations
    {
      if x !in c.derivations {
        NoProofIsFaulty(c, x);
      }
    }
    PublishedAcyclic(c, r);
  }

  /** What a proof proves depends on the records of its dependencies only. */
  lemma ProvesAmong(proof: Derivation, snapshot: Snapshot, records: map<Id, Record>, later: map<Id, Record>, relation: Record)
    requires relation.Relation? && Proves(proof, snapshot, records, relation)
    requires forall d :: d in proof.dependencies ==> d in later && later[d] == records[d]
    ensures Proves(proof, snapshot, later, relation)
  {
  }

  /** Every published proof proves the relation published under its identity. */
  lemma PublishedProves(c: Candidates, r: Restored, d: Id)
    requires Keyed(c) && RestoredFrom(c, r) && d in r.derivations
    ensures ProofPublished(r, d)
  {
    PublishedSound(c, r);
    MatchesExactly(c, r.records[d]);
    ProvesAmong(r.derivations[d], r.snapshots[r.derivations[d].snapshot], c.records, r.records, r.records[d]);
  }

  lemma PublishedAcyclic(c: Candidates, r: Restored)
    requires RestoredFrom(c, r)
    ensures Acyclic(DerivationGraph(r.derivations))
  {
    var g, h := DerivationGraph(c.derivations), DerivationGraph(r.derivations);
    assert Subgraph(h, g);
    assert forall d :: d in r.derivations ==> !Rejected(c, d);
    forall x ensures !OnCycle(h, x) {
      if OnCycle(h, x) {
        var y :| Edge(h, x, y) && Reach(h, y, x);
        SubgraphReach(h, g, y, x);
        assert OnCycle(g, x);
      }
    }
  }
}

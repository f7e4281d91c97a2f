/**
 * Which records a snapshot makes semantically effective: the snapshot tree, the replacement edges
 * visible on a branch, and the greatest set of records whose derivations still stand
 * (src/atlas/store.py, the methods from `_snapshot_descends_from` to `_effective_record_ids`).
 */
module Lineage {
  import opened Graph
  import opened Model
  import opened Ordering

  // ---------------------------------------------------------------- the snapshot tree

  function ParentGraph(snapshots: map<Id, Snapshot>): Digraph
  {
    map s | s in snapshots :: if snapshots[s].parent.Some? then [snapshots[s].parent.value] else []
  }

  ghost predicate ParentsPresent(snapshots: map<Id, Snapshot>)
  {
    forall s :: s in snapshots && snapshots[s].parent.Some? ==> snapshots[s].parent.value in snapshots
  }

  /** `descendant` is `ancestor` or was taken below it. */
  ghost predicate Descends(snapshots: map<Id, Snapshot>, descendant: Id, ancestor: Id)
  {
    Reach(ParentGraph(snapshots), descendant, ancestor)
  }

  /** The walk from `start` has left `seen` behind, whose edges all stay within it and `current`. */
  ghost predicate Walked(g: Digraph, start: Id, seen: set<Id>, current: Id, ancestor: Id)
  {
    && Reach(g, start, current) && start in seen + {current} && ancestor !in seen
    && forall x, y :: x in seen && Edge(g, x, y) ==> y in seen + {current}
  }

  lemma WalkEnds(g: Digraph, start: Id, seen: set<Id>, current: Id, ancestor: Id)
    requires Walked(g, start, seen, current, ancestor) && current != ancestor
    requires forall y :: Edge(g, current, y) ==> y in seen + {current}
    ensures !Reach(g, start, ancestor)
  {
    var all := seen + {current};
    assert Closed(g, all);
    if Reach(g, start, ancestor) {
      ClosedReach(g, all, start, ancestor);
    }
  }

  lemma WalkStep(g: Digraph, start: Id, seen: set<Id>, current: Id, ancestor: Id, next: Id)
    requires Walked(g, start, seen, current, ancestor) && current != ancestor
    requires forall y :: Edge(g, current, y) <==> y == next
    ensures Walked(g, start, seen + {current}, next, ancestor)
  {
    ReachEdge(g, current, next);
    ReachTransitive(g, start, current, next);
  }

  /** `_snapshot_descends_from`: follows parents until the ancestor, a root or a repetition. */
  method SnapshotDescendsFrom(snapshots: map<Id, Snapshot>, descendant: Id, ancestor: Id) returns (r: bool)
    requires ParentsPresent(snapshots) && descendant in snapshots
    ensures r <==> Descends(snapshots, descendant, ancestor)
  {
    ghost var g := ParentGraph(snapshots);
    var current, seen: set<Id> := descendant, {};
    ReachSelf(g, descendant);
    while true
      invariant current in snapshots
      invariant Walked(g, descendant, seen, current, ancestor)
      decreases |snapshots.Keys - seen|
    {
      if current == ancestor {
        return true;
      }
      var parent := snapshots[current].parent;
      assert g[current] == if parent.Some? then [parent.value] else [];
      if parent.None? || parent.value in seen {
        WalkEnds(g, descendant, seen, current, ancestor);
        return false;
      }
      assert Edge(g, current, parent.value);
      WalkStep(g, descendant, seen, current, ancestor, parent.value);
      Fewer(snapshots.Keys, seen, current);
      seen := seen + {current};
      current := parent.value;
    }
  }

  // ---------------------------------------------------------------- visible replacements

  /** The retired records whose edge was made on the branch of `snapshot`. */
  ghost function Visible(st: StoreState, snapshot: Id): set<Id>
  {
    set r | r in st.supersessions && Descends(st.snapshots, snapshot, st.supersessions[r].snapshot)
  }

  function Targets(edges: map<Id, Supersession>, retired: set<Id>): set<Id>
    requires retired <= edges.Keys
  {
    set r | r in retired :: edges[r].replacement
  }

  /** `_visible_supersessions`. */
  method VisibleSupersessions(st: StoreState, snapshot: Id) returns (visible: set<Id>)
    requires ParentsPresent(st.snapshots) && snapshot in st.snapshots
    ensures visible == Visible(st, snapshot)
  {
    visible := {};
    var pending := st.supersessions.Keys;
    while pending != {}
      invariant pending <= st.supersessions.Keys
      invariant visible == Visible(st, snapshot) - pending
      decreases |pending|
    {
      var r := Least(pending);
      var descends := SnapshotDescendsFrom(st.snapshots, snapshot, st.supersessions[r].snapshot);
      if descends {
        visible := visible + {r};
      }
      pending := pending - {r};
    }
  }

  // ---------------------------------------------------------------- the effective view

  function RecordSet(snapshot: Snapshot): set<Id>
  {
    set r | r in snapshot.records
  }

  /** What remains of a snapshot before derivations are considered: records neither visibly replaced nor
      the replacement of an edge that is not visible here. */
  ghost function Base(st: StoreState, snapshot: Id): set<Id>
    requires snapshot in st.snapshots
  {
    var visible := Visible(st, snapshot);
    RecordSet(st.snapshots[snapshot]) - visible
    - (Targets(st.supersessions, st.supersessions.Keys) - Targets(st.supersessions, visible))
  }

  /** A derived member has a dependency that is not a member. */
  predicate Unsupported(derivations: map<Id, Derivation>, members: set<Id>, x: Id)
  {
    x in members && x in derivations && exists d :: d in derivations[x].dependencies && d !in members
  }

  /** Every derived member has all its dependencies among the members. */
  ghost predicate Supported(derivations: map<Id, Derivation>, members: set<Id>)
  {
    forall x :: x in members ==> !Unsupported(derivations, members, x)
  }

  /** `members` is the largest supported part of `base`. */
  ghost predicate GreatestSupported(derivations: map<Id, Derivation>, base: set<Id>, members: set<Id>)
  {
    && members <= base && Supported(derivations, members)
    && forall other: set<Id> :: other <= base && Supported(derivations, other) ==> other <= members
  }

  /** Discards unsupported members round by round. */
  function Prune(derivations: map<Id, Derivation>, members: set<Id>): (r: set<Id>)
    ensures GreatestSupported(derivations, members, r)
    decreases |members|
  {
    var bad := set x | x in members && Unsupported(derivations, members, x);
    if bad == {} then
      assert forall x :: x in members && Unsupported(derivations, members, x) ==> x in bad;
      members
    else
      assert |members - bad| < |members| by {
        assert members == (members - bad) + bad;
      }
      assert forall other: set<Id> :: other <= members && Supported(derivations, other) ==> other <= members - bad by {
        forall other: set<Id> | other <= members && Supported(derivations, other) ensures other <= members - bad {
          SupportedAvoids(derivations, members, other, bad);
        }
      }
      Prune(derivations, members - bad)
  }

  /** A supported set keeps clear of members that are unsupported in a larger set. */
  lemma SupportedAvoids(derivations: map<Id, Derivation>, members: set<Id>, other: set<Id>, bad: set<Id>)
    requires other <= members && Supported(derivations, other)
    requires forall x :: x in bad ==> Unsupported(derivations, members, x)
    ensures other !! bad
  {
    assert forall x :: x in other && x in bad ==> Unsupported(derivations, other, x);
  }

  lemma GreatestUnique(derivations: map<Id, Derivation>, base: set<Id>, a: set<Id>, b: set<Id>)
    requires GreatestSupported(derivations, base, a) && GreatestSupported(derivations, base, b)
    ensures a == b
  {
  }

  ghost function Effective(st: StoreState, snapshot: Id): set<Id>
    requires snapshot in st.snapshots
  {
    Prune(st.derivations, Base(st, snapshot))
  }

  /** The `while changed` loop: members lose their place one at a time, in whatever order they are met. */
  method Settle(derivations: map<Id, Derivation>, base: set<Id>) returns (effective: set<Id>)
    ensures GreatestSupported(derivations, base, effective)
  {
    effective := base;
    var changed := true;
    while changed
      invariant effective <= base
      invariant forall other: set<Id> :: other <= base && Supported(derivations, other) ==> other <= effective
      invariant !changed ==> Supported(derivations, effective)
      decreases |effective|, changed
    {
      changed := false;
      ghost var start := effective;
      var pending := derivations.Keys;
      while pending != {}
        invariant pending <= derivations.Keys && effective <= start
        invariant forall other: set<Id> :: other <= base && Supported(derivations, other) ==> other <= effective
        invariant if changed then |effective| < |start| else effective == start
        invariant !changed ==> forall x :: x in effective && x !in pending ==> !Unsupported(derivations, effective, x)
        decreases |pending|
      {
        var x :| x in pending;
        if Unsupported(derivations, effective, x) {
          forall other: set<Id> | other <= base && Supported(derivations, other) ensures other <= effective - {x} {
            SupportedAvoids(derivations, effective, other, {x});
          }
          effective := effective - {x};
          changed := true;
        }
        pending := pending - {x};
      }
    }
  }

  /** `x` was replaced at the snapshot or above it. */
  ghost predicate Retired(st: StoreState, snapshot: Id, x: Id)
  {
    x in st.supersessions && Descends(st.snapshots, snapshot, st.supersessions[x].snapshot)
  }

  /** `x` replaces something, but nowhere that the snapshot sees. */
  ghost predicate HiddenTarget(st: StoreState, snapshot: Id, x: Id)
  {
    && (exists r :: r in st.supersessions && st.supersessions[r].replacement == x)
    && !exists r :: Retired(st, snapshot, r) && st.supersessions[r].replacement == x
  }

  /** Records of the snapshot that are neither retired nor hidden, each derived one with all its dependencies. */
  ghost predicate Upright(st: StoreState, snapshot: Id, members: set<Id>)
    requires snapshot in st.snapshots
  {
    forall x :: x in members ==>
      && x in st.snapshots[snapshot].records && !Retired(st, snapshot, x) && !HiddenTarget(st, snapshot, x)
      && (x in st.derivations ==> forall d :: d in st.derivations[x].dependencies ==> d in members)
  }

  lemma BaseExactly(st: StoreState, snapshot: Id, x: Id)
    requires snapshot in st.snapshots
    ensures x in Base(st, snapshot)
       <==> x in st.snapshots[snapshot].records && !Retired(st, snapshot, x) && !HiddenTarget(st, snapshot, x)
  {
    var visible := Visible(st, snapshot);
    assert forall r :: r in visible <==> Retired(st, snapshot, r);
    assert x in Targets(st.supersessions, st.supersessions.Keys) <==> exists r :: r in st.supersessions && st.supersessions[r].replacement == x;
    assert x in Targets(st.supersessions, visible) <==> exists r :: Retired(st, snapshot, r) && st.supersessions[r].replacement == x;
  }

  lemma UprightExactly(st: StoreState, snapshot: Id, members: set<Id>)
    requires snapshot in st.snapshots
    ensures Upright(st, snapshot, members) <==> members <= Base(st, snapshot) && Supported(st.derivations, members)
  {
    forall x ensures x in Base(st, snapshot)
       <==> x in st.snapshots[snapshot].records && !Retired(st, snapshot, x) && !HiddenTarget(st, snapshot, x)
    {
      BaseExactly(st, snapshot, x);
    }
  }

  /** The effective records are the greatest upright set. */
  lemma EffectiveExactly(st: StoreState, snapshot: Id)
    requires snapshot in st.snapshots
    ensures Upright(st, snapshot, Effective(st, snapshot))
    ensures forall members :: Upright(st, snapshot, members) ==> members <= Effective(st, snapshot)
  {
    forall members ensures Upright(st, snapshot, members) <==> members <= Base(st, snapshot) && Supported(st.derivations, members) {
      UprightExactly(st, snapshot, members);
    }
  }

  /** `_effective_record_ids`. */
  method EffectiveRecordIds(st: StoreState, snapshot: Id) returns (ids: seq<Id>)
    requires ParentsPresent(st.snapshots) && snapshot in st.snapshots
    ensures ids == Among(st.snapshots[snapshot].records, Effective(st, snapshot))
    ensures Upright(st, snapshot, set x | x in ids)
    ensures forall members :: Upright(st, snapshot, members) ==> forall x :: x in members ==> x in ids
  {
    var visible := VisibleSupersessions(st, snapshot);
    var effective := RecordSet(st.snapshots[snapshot]);
    var replacementTargets := Targets(st.supersessions, st.supersessions.Keys);
    var visibleTargets := Targets(st.supersessions, visible);
    effective := effective - visible;
    effective := effective - (replacementTargets - visibleTargets);
    ghost var base := effective;
    effective := Settle(st.derivations, effective);
    GreatestUnique(st.derivations, base, effective, Effective(st, snapshot));
    EffectiveExactly(st, snapshot);
    ids := Among(st.snapshots[snapshot].records, effective);
  }
}

/** Which proofs of a file are published on opening, told by what a proof proves. */
module LoadedProofs {
  import opened Graph
  import opened LoadedStates
  import opened Model
  import opened Ordering
  import opened Reopening
  import opened RestoreClosure

  // ---------------------------------------------------------------- among the decoded rows

  /** The candidates under `d` are a relation and its own proof, and the proof proves the relation at a published
      snapshot from published records. */
  ghost predicate PairProved(c: Candidates, r: Restored, d: Id)
  {
    && d in c.records && c.records[d].Relation? && c.records[d].derivation == Some(d)
    && d in c.derivations && c.derivations[d].snapshot in r.snapshots
    && Proves(c.derivations[d], r.snapshots[c.derivations[d].snapshot], r.records, c.records[d])
  }

  /** Another relation names the proof. */
  ghost predicate BorrowedBy(c: Candidates, y: Id, d: Id)
  {
    y in c.records && y != d && c.records[y].Relation? && c.records[y].derivation == Some(d)
  }

  ghost predicate Sourced(c: Candidates)
  {
    forall x, s :: x in c.records && s in c.records[x].sources ==> s in c.sources
  }

  lemma BorrowedIsRejected(c: Candidates, y: Id, d: Id)
    requires Keyed(c) && BorrowedBy(c, y, d) && d in c.derivations
    ensures Rejected(c, d)
  {
    assert Unproved(c, y);
    RejectedAloneExactly(c);
  }

  lemma PublishedIsProved(c: Candidates, r: Restored, d: Id)
    requires Keyed(c) && RestoredFrom(c, r) && d in r.derivations
    ensures PairProved(c, r, d) && forall y :: !BorrowedBy(c, y, d)
  {
    PublishedSound(c, r);
    PublishedProves(c, r, d);
    forall y ensures !BorrowedBy(c, y, d) {
      if BorrowedBy(c, y, d) {
        BorrowedIsRejected(c, y, d);
        assert false;
      }
    }
  }

  lemma ProvedIsNotRejectedAlone(c: Candidates, r: Restored, d: Id)
    requires Keyed(c) && Sourced(c) && RestoredFrom(c, r) && PairProved(c, r, d) && forall y :: !BorrowedBy(c, y, d)
    ensures !RejectedAlone(c, d)
  {
    var proof := c.derivations[d];
    ProvesAmong(proof, r.snapshots[proof.snapshot], r.records, c.records, c.records[d]);
    assert Proved(c, c.records[d]);
    forall y | Unproved(c, y) ensures c.records[y].derivation != Some(d) {
      assert !BorrowedBy(c, y, d);
    }
  }

  lemma CycleGoesOn(g: Digraph, d: Id, y: Id)
    requires Edge(g, d, y) && Reach(g, y, d)
    ensures OnCycle(g, y)
  {
    var steps :| Path(g, y, steps, d);
    if steps == [] {
      assert y == d;
    } else {
      assert Edge(g, y, steps[0]) && Path(g, steps[0], steps[1..], d);
      ReachEdge(g, d, y);
      ReachTransitive(g, steps[0], d, y);
    }
  }

  /** What is published lies on no cycle of proofs, so neither does what rests on published records only. */
  lemma RestingIsAcyclic(c: Candidates, r: Restored, d: Id)
    requires RestoredFrom(c, r) && d in c.derivations
    requires forall x :: x in c.derivations[d].dependencies ==> x in r.records
    ensures !OnCycle(DerivationGraph(c.derivations), d)
  {
    var g := DerivationGraph(c.derivations);
    if OnCycle(g, d) {
      var y :| Edge(g, d, y) && Reach(g, y, d);
      CycleGoesOn(g, d, y);
      assert y in c.derivations && y in r.records;
      assert y in r.derivations && Rejected(c, y);
      assert false;
    }
  }

  lemma PublishedIsAvailable(c: Candidates, r: Restored, d: Id, x: Id)
    requires Keyed(c) && RestoredFrom(c, r) && x in r.records
    ensures Available(c, r.derivations.Keys + {d}, x)
  {
    PublishedSound(c, r);
  }

  lemma ConsistentMore(c: Candidates, kept: set<Id>, snapshots: set<Id>, d: Id)
    requires Consistent(c, kept, snapshots) && d in c.derivations && !Rejected(c, d)
    requires forall x :: x in c.derivations[d].dependencies ==> Available(c, kept + {d}, x)
    requires c.derivations[d].snapshot in snapshots
    ensures Consistent(c, kept + {d}, snapshots)
  {
    assert forall x :: Available(c, kept, x) ==> Available(c, kept + {d}, x);
    forall e | e in kept ensures DerivationStands(c, kept + {d}, snapshots, e) {
      assert DerivationStands(c, kept, snapshots, e);
    }
    forall s | s in snapshots ensures SnapshotStands(c, kept + {d}, snapshots, s) {
      assert SnapshotStands(c, kept, snapshots, s);
    }
  }

  lemma ProvedIsPublished(c: Candidates, r: Restored, d: Id)
    requires Keyed(c) && Sourced(c) && RestoredFrom(c, r) && PairProved(c, r, d) && forall y :: !BorrowedBy(c, y, d)
    ensures d in r.derivations
  {
    ProvedIsNotRejectedAlone(c, r, d);
    RejectedAloneExactly(c);
    RestingIsAcyclic(c, r, d);
    forall x | x in c.derivations[d].dependencies ensures Available(c, r.derivations.Keys + {d}, x) {
      PublishedIsAvailable(c, r, d, x);
    }
    ConsistentMore(c, r.derivations.Keys, r.snapshots.Keys, d);
  }

  // ---------------------------------------------------------------- in the opened store

  /** What the rows publish, of the restoration only. */
  function RestoredAs(st: StoreState, invalid: set<Id>, invalidSnapshots: set<Id>): Restored
  {
    Restored(st.records, st.derivations, st.snapshots, invalid, invalidSnapshots)
  }

  /** Both rows pass their tests on their own. */
  ghost predicate RowsFit(rows: Stored, d: Id)
  {
    && d in rows.derivations && ProofRowFits(d, rows.derivations[d])
    && d in rows.records && RecordRowFits(rows, d, rows.records[d])
  }

  /** The rows under `d` are a relation and its own proof, and the proof proves the relation at its snapshot, which is
      published, from records that are published. */
  ghost predicate ProvedAt(rows: Stored, st: StoreState, d: Id)
  {
    && d in rows.records && rows.records[d].Relation? && rows.records[d].derivation == Some(d)
    && d in rows.derivations && rows.derivations[d].snapshot in st.snapshots
    && Proves(rows.derivations[d], st.snapshots[rows.derivations[d].snapshot], st.records, rows.records[d])
  }

  /** Another relation that passes its row test names the proof. */
  ghost predicate Borrowed(rows: Stored, d: Id)
  {
    exists y :: y != d && y in rows.records && RecordRowFits(rows, y, rows.records[y])
                && rows.records[y].Relation? && rows.records[y].derivation == Some(d)
  }

  lemma PairFromRows(rows: Stored, kept: set<Id>, st: StoreState, r: Restored, d: Id)
    requires r.records == st.records && r.snapshots == st.snapshots
    ensures PairProved(CandidatesFrom(rows, kept), r, d) <==> RowsFit(rows, d) && ProvedAt(rows, st, d)
  {
  }

  lemma BorrowedFromRows(rows: Stored, kept: set<Id>, d: Id)
    ensures (exists y :: BorrowedBy(CandidatesFrom(rows, kept), y, d)) <==> Borrowed(rows, d)
  {
    var c := CandidatesFrom(rows, kept);
    if Borrowed(rows, d) {
      var y :| y != d && y in rows.records && RecordRowFits(rows, y, rows.records[y])
               && rows.records[y].Relation? && rows.records[y].derivation == Some(d);
      assert BorrowedBy(c, y, d);
    }
  }

  lemma RowsSourced(rows: Stored, kept: set<Id>)
    ensures Keyed(CandidatesFrom(rows, kept)) && Sourced(CandidatesFrom(rows, kept))
  {
    CandidatesKeyed(rows, kept);
    forall x | x in RestoredRecords(rows) ensures RecordRowFits(rows, x, RestoredRecords(rows)[x]) {
    }
  }

  lemma RestorationOf(rows: Stored, st: StoreState) returns (kept: set<Id>, r: Restored)
    requires KnowledgeLoaded(rows, st)
    ensures RestoredFrom(CandidatesFrom(rows, kept), r)
    ensures r.records == st.records && r.derivations == st.derivations && r.snapshots == st.snapshots
  {
    var kept', invalid, invalidSnapshots :| ClosedFrom(rows, st, kept', invalid, invalidSnapshots);
    kept, r := kept', RestoredAs(st, invalid, invalidSnapshots);
  }

  /** A proof is published exactly when it proves the relation of its identity from published records at a published
      snapshot, both rows pass their own tests, and no other relation names it. */
  lemma ProofLoadedExactly(rows: Stored, st: StoreState, d: Id)
    requires KnowledgeLoaded(rows, st)
    ensures d in st.derivations <==> RowsFit(rows, d) && ProvedAt(rows, st, d) && !Borrowed(rows, d)
  {
    var kept, r := RestorationOf(rows, st);
    var c := CandidatesFrom(rows, kept);
    RowsSourced(rows, kept);
    PairFromRows(rows, kept, st, r, d);
    BorrowedFromRows(rows, kept, d);
    if d in r.derivations {
      PublishedIsProved(c, r, d);
    } else if PairProved(c, r, d) && forall y :: !BorrowedBy(c, y, d) {
      ProvedIsPublished(c, r, d);
    }
  }

  /** What a published proof says: the relation published with it is its rule's head, instance by instance. */
  lemma LoadedConclusion(rows: Stored, st: StoreState, d: Id)
    requires KnowledgeLoaded(rows, st) && d in st.derivations
    ensures d in st.records && st.records[d].Relation? && st.derivations[d].snapshot in st.snapshots
    ensures Proves(st.derivations[d], st.snapshots[st.derivations[d].snapshot], st.records, st.records[d])
  {
    var kept, r := RestorationOf(rows, st);
    CandidatesKeyed(rows, kept);
    PublishedProves(CandidatesFrom(rows, kept), r, d);
  }

  lemma ClaimantIsPaired(rows: Stored, st: StoreState, x: Id)
    requires KnowledgeLoaded(rows, st) && x in st.records && st.records[x].Relation? && st.records[x].derivation.Some?
    ensures x in st.derivations
  {
    var kept, r := RestorationOf(rows, st);
    CandidatesKeyed(rows, kept);
    PublishedSound(CandidatesFrom(rows, kept), r);
  }

  lemma RecordIsItsRow(rows: Stored, st: StoreState, x: Id)
    requires KnowledgeLoaded(rows, st) && x in st.records
    ensures x in rows.records && st.records[x] == rows.records[x]
  {
    var kept, r := RestorationOf(rows, st);
    assert x in CandidatesFrom(rows, kept).records;
  }

  lemma OutIsIsolated(rows: Stored, st: StoreState, x: Id)
    requires st.isolated == IsolatedRows(rows, st)
    ensures x in rows.records && rows.records[x].Relation? && x !in st.records ==> (RelationRow, x) in st.isolated
    ensures x in rows.derivations && x !in st.derivations ==> (DerivationRow, x) in st.isolated
  {
  }

  /** A relation that claims a proof, and a proof, that do not prove and are not proved stay out, and are filed as isolated. */
  lemma UnprovedIsIsolated(rows: Stored, st: StoreState, x: Id)
    requires KnowledgeLoaded(rows, st) && !ProvedAt(rows, st, x)
    ensures x in rows.records && rows.records[x].Relation? && rows.records[x].derivation.Some? ==>
              x !in st.records && (RelationRow, x) in st.isolated
    ensures x in rows.derivations ==> x !in st.derivations && (DerivationRow, x) in st.isolated
  {
    ProofLoadedExactly(rows, st, x);
    if x in st.records && st.records[x].Relation? && st.records[x].derivation.Some? {
      ClaimantIsPaired(rows, st, x);
    }
    if x in st.records {
      RecordIsItsRow(rows, st, x);
    }
    OutIsIsolated(rows, st, x);
  }
}

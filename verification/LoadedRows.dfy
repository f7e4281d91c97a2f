/** Which rows of a file are in force after opening, and which are set aside, told row by row. */
module LoadedRows {
  import opened LineageTheorems
  import opened LoadedStates
  import opened Model
  import opened Ordering
  import opened Problems
  import opened Reopening
  import opened RestoreClosure
  import opened Rules
  import opened RunChecks
  import opened Scopes
  import opened Selections
  import opened Statuses
  import opened StepContents
  import opened StoreInvariants
  import opened StoreSteps
  import opened SupersessionRestore
  import opened Supersessions

  // ---------------------------------------------------------------- definitions

  /** A snapshot row that passes its first tests, which is enough to have a say about definitions. */
  ghost predicate HasASay(rows: Stored, s: Id)
  {
    && s in rows.snapshots
    && var snap := rows.snapshots[s];
    && snap.id == s && snap.descriptions <= rows.descriptions && ListedOnce(snap.records)
    && (forall x :: x in snap.records ==> x in rows.records && RecordRowFits(rows, x, rows.records[x]))
    && (forall name :: name in snap.predicates ==> (name, snap.predicates[name]) in rows.vocabulary.predicates)
    && forall name :: name in snap.properties ==> (name, snap.properties[name]) in rows.vocabulary.properties
  }

  lemma HasASayExactly(rows: Stored, s: Id)
    ensures s in Claimants(rows) <==> HasASay(rows, s)
    ensures s in Claimants(rows) ==> Claimants(rows)[s] == rows.snapshots[s]
  {
  }

  /** Of the snapshots that have a say none fixes the rule, or one fixes it as it is. */
  ghost predicate RuleConfirmed(rows: Stored, r: Id)
    requires r in rows.rules
  {
    || (forall s :: HasASay(rows, s) ==> r !in rows.snapshots[s].rules)
    || exists s :: HasASay(rows, s) && r in rows.snapshots[s].rules && rows.snapshots[s].rules[r] == rows.rules[r]
  }

  ghost predicate ContextConfirmed(rows: Stored, c: Id)
    requires c in rows.contexts
  {
    || (forall s :: HasASay(rows, s) ==> c !in rows.snapshots[s].contexts)
    || exists s :: HasASay(rows, s) && c in rows.snapshots[s].contexts && rows.snapshots[s].contexts[c] == rows.contexts[c]
  }

  /** A rule is in force exactly when its row passes its test and the snapshots confirm it. */
  lemma RuleInForceExactly(rows: Stored, st: StoreState, r: Id)
    requires st.rules == ActiveRules(rows)
    ensures r in st.rules <==> r in rows.rules && RuleRowFits(rows.vocabulary, rows.rules[r]) && RuleConfirmed(rows, r)
    ensures r in st.rules ==> st.rules[r] == rows.rules[r]
  {
    forall s ensures s in Claimants(rows) <==> HasASay(rows, s) {
      HasASayExactly(rows, s);
    }
  }

  /** A context is in force exactly when the snapshots confirm it and all rules it enables are in force. */
  lemma ContextInForceExactly(rows: Stored, st: StoreState, c: Id)
    requires st.rules == ActiveRules(rows) && st.contexts == ActiveContexts(rows)
    ensures c in st.contexts
       <==> c in rows.contexts && "" !in rows.contexts[c].scopes && ContextConfirmed(rows, c) && forall r :: r in rows.contexts[c].enabled ==> r in st.rules
    ensures c in st.contexts ==> st.contexts[c] == rows.contexts[c]
  {
    forall s ensures s in Claimants(rows) <==> HasASay(rows, s) {
      HasASayExactly(rows, s);
    }
  }

  // ---------------------------------------------------------------- isolated rows

  /** The row of a replacement is in force: it is well placed against what was decoded, and its edge is published. */
  ghost predicate ClaimInForce(rows: Stored, st: StoreState, c: Claim)
  {
    c in rows.claims && Wellplaced(Decoded(rows), c.edge) && c.edge.retired in st.supersessions
  }

  lemma {:induction false} FittingMembers(st: StoreState, claims: seq<Claim>, c: Claim)
    ensures c in Fitting(st, claims) <==> c in claims && Wellplaced(st, c.edge)
  {
    if claims != [] {
      FittingMembers(st, claims[1..], c);
      assert c in claims <==> c == claims[0] || c in claims[1..];
    }
  }

  /** The row of this kind and identity is set aside. */
  ghost predicate AsideAs(rows: Stored, st: StoreState, kind: RowKind, id: Id)
  {
    match kind
    case RuleRow => id in rows.rules && id !in st.rules
    case ContextRow => id in rows.contexts && id !in st.contexts
    case DerivationRow => id in rows.derivations && id !in st.derivations
    case SnapshotRow => id in rows.snapshots && id !in st.snapshots
    case PropertyRow => id in rows.records && rows.records[id].Property? && !RecordRowFits(rows, id, rows.records[id])
    case RelationRow => id in rows.records && id !in st.records && (rows.records[id].Relation? || RecordRowFits(rows, id, rows.records[id]))
    case SupersessionRow => exists c :: c in rows.claims && c.row == id && !ClaimInForce(rows, st, c)
  }

  lemma AsideExactly(rows: Stored, st: StoreState, kind: RowKind, id: Id)
    requires st.isolated == IsolatedRows(rows, st)
    ensures (kind, id) in st.isolated <==> AsideAs(rows, st, kind, id)
  {
    DefinitionRows(rows, st, (kind, id));
    KnowledgeRows(rows, st, (kind, id));
    StructureRows(rows, st, (kind, id));
  }

  /** The rows that are set aside are those not in force. A property is set aside for its own sake only; with a proof of
      its identity that is dropped it is filed as a relation. */
  lemma IsolatedExactly(rows: Stored, st: StoreState, kind: RowKind, id: Id)
    requires KnowledgeLoaded(rows, st)
    ensures (kind, id) in st.isolated <==> AsideAs(rows, st, kind, id)
  {
    AsideExactly(rows, st, kind, id);
  }

  lemma DefinitionRows(rows: Stored, st: StoreState, row: (RowKind, Id))
    ensures row in IsolatedDefinitions(rows, st)
       <==> || (row.0 == RuleRow && row.1 in rows.rules && row.1 !in st.rules)
            || (row.0 == ContextRow && row.1 in rows.contexts && row.1 !in st.contexts)
  {
    assert row == (row.0, row.1);
  }

  lemma KnowledgeRows(rows: Stored, st: StoreState, row: (RowKind, Id))
    ensures row in IsolatedProperties(rows)
       <==> row.0 == PropertyRow && row.1 in rows.records && rows.records[row.1].Property? && !RecordRowFits(rows, row.1, rows.records[row.1])
    ensures row in IsolatedRelations(rows, st)
       <==> && row.0 == RelationRow && row.1 in rows.records && row.1 !in st.records
            && (rows.records[row.1].Relation? || RecordRowFits(rows, row.1, rows.records[row.1]))
  {
    assert row == (row.0, row.1);
  }

  lemma StructureRows(rows: Stored, st: StoreState, row: (RowKind, Id))
    ensures row in IsolatedStructure(rows, st)
       <==> || (row.0 == DerivationRow && row.1 in rows.derivations && row.1 !in st.derivations)
            || (row.0 == SnapshotRow && row.1 in rows.snapshots && row.1 !in st.snapshots)
            || (row.0 == SupersessionRow && exists c :: c in rows.claims && c.row == row.1 && !ClaimInForce(rows, st, c))
  {
    assert row == (row.0, row.1);
    forall c ensures c in Fitting(Decoded(rows), rows.claims) <==> c in rows.claims && Wellplaced(Decoded(rows), c.edge) {
      FittingMembers(Decoded(rows), rows.claims, c);
    }
  }
}

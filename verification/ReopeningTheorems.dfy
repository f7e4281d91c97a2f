/** Closing and reopening a store: what of a reachable state is published again, exactly. */
module ReopeningTheorems {
  import opened Graph
  import opened Lineage
  import opened LineageTheorems
  import opened Model
  import opened Ordering
  import opened Problems
  import opened Reopening
  import opened RestoreClosure
  import opened Rules
  import opened RuleTheorems
  import opened Scopes
  import opened Selections
  import opened Statuses
  import opened StatusFrames
  import opened StoreFrames
  import opened StoreInvariants
  import opened StoreSteps
  import opened StoreTheorems
  import opened SupersessionRestore
  import opened Supersessions

  /** The rows that a state has written, with the replacement rows in any order. */
  function RowsOf(st: StoreState, claims: seq<Claim>): Stored
  {
    Stored(st.vocabulary, st.descriptions, st.sources, st.rules, st.contexts, st.records, st.derivations, st.snapshots, claims,
           st.scopes, st.groundings, st.problems, st.decisions)
  }

  // ---------------------------------------------------------------- which rows pass

  /** Restore refuses a relation whose participants repeat before the last. */
  predicate RecordPasses(r: Record)
  {
    r.Relation? ==> SeemsDistinct(r.participants)
  }

  /** Restore refuses a rule whose participants repeat at all. */
  predicate RulePasses(rule: Rule)
  {
    DistinctNames(rule.body.participants)
  }

  predicate EnablesOnlyPassing(st: StoreState, context: Context)
  {
    forall r :: r in context.enabled && r in st.rules ==> RulePasses(st.rules[r])
  }

  predicate FixesOnlyPassing(snapshot: Snapshot)
  {
    forall r :: r in snapshot.rules ==> RulePasses(snapshot.rules[r])
  }

  predicate ContextsPass(st: StoreState, snapshot: Snapshot)
  {
    forall c :: c in snapshot.contexts ==> EnablesOnlyPassing(st, snapshot.contexts[c])
  }

  predicate RecordsPass(st: StoreState, snapshot: Snapshot)
  {
    forall x :: x in snapshot.records && x in st.records ==> RecordPasses(st.records[x])
  }

  /** A snapshot passes with everything it holds. */
  predicate SnapshotPasses(st: StoreState, snapshot: Snapshot)
  {
    RecordsPass(st, snapshot) && FixesOnlyPassing(snapshot) && ContextsPass(st, snapshot)
  }

  /** The static check of a rule gives the same answer under every later vocabulary. */
  lemma {:induction false} CheckGrows(participants: seq<string>, earlier: Vocabulary, later: Vocabulary, e: Expr)
    requires ExtendsVocabulary(earlier, later) && CheckExpr(participants, earlier, true, e).Ok?
    ensures CheckExpr(participants, later, true, e) == CheckExpr(participants, earlier, true, e)
  {
    if e.Node? && IsSetOperator(e.op) {
      CheckGrows(participants, earlier, later, e.left);
      CheckGrows(participants, earlier, later, e.right);
    }
  }

  lemma RuleRowExactly(st: StoreState, r: Id)
    requires r in st.rules && RuleSound(st, r)
    ensures RuleRowFits(st.vocabulary, st.rules[r]) <==> RulePasses(st.rules[r])
  {
    var vocabulary, body :| ExtendsVocabulary(vocabulary, st.vocabulary)
                            && AdmitRule(vocabulary, st.rules[r].version, body) == Ok(st.rules[r]);
    CheckGrows(body.participants, vocabulary, st.vocabulary, st.rules[r].body.condition);
  }

  lemma RuleKeptExactly(st: StoreState, claims: seq<Claim>, r: Id)
    requires DefinitionsSound(st) && r in st.rules
    ensures r in RestoredRules(RowsOf(st, claims)) <==> RulePasses(st.rules[r])
  {
    assert RuleSound(st, r);
    RuleRowExactly(st, r);
  }

  lemma ContextKeptExactly(st: StoreState, claims: seq<Claim>, c: Id)
    requires DefinitionsSound(st) && c in st.contexts
    ensures c in RestoredContexts(RowsOf(st, claims))
       <==> EnablesOnlyPassing(st, st.contexts[c])
  {
    assert ContextSound(st, c);
    var rules := RestoredRules(RowsOf(st, claims));
    forall r | r in st.contexts[c].enabled ensures r in st.rules && (r in rules <==> RulePasses(st.rules[r])) {
      RuleKeptExactly(st, claims, r);
    }
  }

  lemma RecordKeptExactly(st: StoreState, claims: seq<Claim>, x: Id)
    requires x in st.records && RecordSound(st, x)
    ensures x in RestoredRecords(RowsOf(st, claims)) <==> RecordPasses(st.records[x])
  {
  }

  lemma BoundNames(bindings: seq<(string, Id)>, names: seq<string>)
    requires Names(bindings) == names && forall name :: name in names ==> name != ""
    ensures forall b :: b in bindings ==> b.0 != ""
  {
    forall b | b in bindings ensures b.0 != "" {
      var i :| 0 <= i < |bindings| && bindings[i] == b;
      assert Names(bindings)[i] in names;
    }
  }

  lemma ProofParticipants(st: StoreState, d: Id)
    requires d in st.derivations && ProofSound(st, d)
    ensures var proof := st.derivations[d];
            && proof.snapshot in st.snapshots && proof.rule in st.snapshots[proof.snapshot].rules
            && Names(proof.bindings) == st.snapshots[proof.snapshot].rules[proof.rule].body.participants
  {
  }

  lemma ProofKept(st: StoreState, claims: seq<Claim>, d: Id)
    requires KnowledgeSound(st) && DefinitionsSound(st) && d in st.derivations
    ensures d in RestoredProofs(RowsOf(st, claims))
  {
    var proof := st.derivations[d];
    assert ProofSound(st, d);
    ProofParticipants(st, d);
    assert SnapshotSound(st, proof.snapshot);
    assert RuleSound(st, proof.rule);
    AdmittedHead(st, proof.rule);
    BoundNames(proof.bindings, st.rules[proof.rule].body.participants);
    assert ProofRowFits(d, proof);
  }

  lemma AscendingDistinct(names: seq<string>)
    requires Ascending(names)
    ensures DistinctNames(names)
  {
    forall i, j | 0 <= i < j < |names| ensures names[i] != names[j] {
      BelowTotal(names[i], names[j]);
    }
  }

  lemma SnapshotRulesExactly(st: StoreState, claims: seq<Claim>, snapshot: Snapshot)
    requires DefinitionsSound(st) && SubMap(snapshot.rules, st.rules)
    ensures RulesActive(RestoredRules(RowsOf(st, claims)), snapshot) <==> FixesOnlyPassing(snapshot)
  {
    var rules := RestoredRules(RowsOf(st, claims));
    forall r | r in snapshot.rules ensures r in rules <==> RulePasses(snapshot.rules[r]) {
      RuleKeptExactly(st, claims, r);
    }
  }

  lemma SnapshotContextsExactly(st: StoreState, claims: seq<Claim>, snapshot: Snapshot)
    requires DefinitionsSound(st) && SubMap(snapshot.contexts, st.contexts)
    ensures ContextsActive(RestoredContexts(RowsOf(st, claims)), snapshot) <==> ContextsPass(st, snapshot)
  {
    var contexts := RestoredContexts(RowsOf(st, claims));
    forall c | c in snapshot.contexts ensures c in contexts <==> EnablesOnlyPassing(st, snapshot.contexts[c]) {
      ContextKeptExactly(st, claims, c);
    }
  }

  lemma SnapshotStructureExactly(st: StoreState, claims: seq<Claim>, s: Id)
    requires (forall x :: x in st.records ==> RecordSound(st, x)) && s in st.snapshots && SnapshotSound(st, s)
    ensures s in Claimants(RowsOf(st, claims)) <==> RecordsPass(st, st.snapshots[s])
  {
    var rows, snapshot := RowsOf(st, claims), st.snapshots[s];
    AscendingDistinct(snapshot.records);
    var records := RestoredRecords(rows);
    forall x | x in snapshot.records ensures x in st.records && (x in records <==> RecordPasses(st.records[x])) {
      assert x in RecordSet(snapshot);
      assert RecordSound(st, x);
      RecordKeptExactly(st, claims, x);
    }
  }

  lemma SnapshotPlaced(rows: Stored, s: Id)
    requires s in rows.snapshots
    ensures s in RestoredSnapshots(rows)
       <==> && s in Claimants(rows) && RulesActive(RestoredRules(rows), rows.snapshots[s])
            && ContextsActive(RestoredContexts(rows), rows.snapshots[s])
  {
  }

  lemma SnapshotKeptExactly(st: StoreState, claims: seq<Claim>, s: Id)
    requires KnowledgeSound(st) && DefinitionsSound(st) && s in st.snapshots
    ensures s in RestoredSnapshots(RowsOf(st, claims)) <==> SnapshotPasses(st, st.snapshots[s])
  {
    assert SnapshotSound(st, s);
    SnapshotStructureExactly(st, claims, s);
    SnapshotRulesExactly(st, claims, st.snapshots[s]);
    SnapshotContextsExactly(st, claims, st.snapshots[s]);
    SnapshotPlaced(RowsOf(st, claims), s);
  }

  // ---------------------------------------------------------------- the passes over definitions

  lemma ClaimantsAgree(st: StoreState, claims: seq<Claim>, s: Id)
    requires KnowledgeSound(st) && s in Claimants(RowsOf(st, claims))
    ensures var snapshot := Claimants(RowsOf(st, claims))[s]; SubMap(snapshot.rules, st.rules) && SubMap(snapshot.contexts, st.contexts)
  {
    assert SnapshotSound(st, s);
  }

  lemma RuleIsUpheld(st: StoreState, claims: seq<Claim>, r: Id)
    requires KnowledgeSound(st) && r in st.rules
    ensures RuleUpheld(Claimants(RowsOf(st, claims)), r, st.rules[r])
  {
    var claimants := Claimants(RowsOf(st, claims));
    forall s | s in claimants && r in claimants[s].rules ensures claimants[s].rules[r] == st.rules[r] {
      ClaimantsAgree(st, claims, s);
    }
  }

  lemma RulesUpheld(st: StoreState, claims: seq<Claim>)
    requires KnowledgeSound(st)
    ensures ActiveRules(RowsOf(st, claims)) == RestoredRules(RowsOf(st, claims))
  {
    var rules := RestoredRules(RowsOf(st, claims));
    forall r | r in rules ensures r in ActiveRules(RowsOf(st, claims)) {
      RuleIsUpheld(st, claims, r);
    }
    KeptWhole(ActiveRules(RowsOf(st, claims)), rules);
  }

  /** Snapshots of a reachable state agree on definitions, so no definition falls for their sake. */
  lemma DefinitionsUpheld(st: StoreState, claims: seq<Claim>)
    requires KnowledgeSound(st)
    ensures ActiveRules(RowsOf(st, claims)) == RestoredRules(RowsOf(st, claims))
    ensures ActiveContexts(RowsOf(st, claims)) == RestoredContexts(RowsOf(st, claims))
  {
    RulesUpheld(st, claims);
    var contexts, claimants := RestoredContexts(RowsOf(st, claims)), Claimants(RowsOf(st, claims));
    forall c | c in contexts ensures ContextUpheld(claimants, c, contexts[c]) {
      forall s | s in claimants && c in claimants[s].contexts ensures claimants[s].contexts[c] == contexts[c] {
        ClaimantsAgree(st, claims, s);
      }
    }
  }

  lemma WholeIsStanding(st: StoreState)
    requires KnowledgeSound(st)
    ensures GreatestStanding(st.rules, st.contexts, st.snapshots, st.snapshots.Keys)
  {
    forall s | s in st.snapshots
      ensures DefinitionsActive(st.rules, st.contexts, st.snapshots[s])
      ensures st.snapshots[s].parent.Some? ==> st.snapshots[s].parent.value in st.snapshots
    {
      assert SnapshotSound(st, s);
    }
    assert Standing(st.rules, st.contexts, st.snapshots, st.snapshots.Keys);
  }

  lemma StandingWhole(st: StoreState, kept: set<Id>)
    requires KnowledgeSound(st) && GreatestStanding(st.rules, st.contexts, st.snapshots, kept)
    ensures kept == st.snapshots.Keys
  {
    WholeIsStanding(st);
  }

  // ---------------------------------------------------------------- replacements

  lemma {:induction false} FittingMembers(st: StoreState, claims: seq<Claim>)
    ensures forall c :: c in Fitting(st, claims) <==> c in claims && Wellplaced(st, c.edge)
  {
    if claims != [] {
      FittingMembers(st, claims[1..]);
      assert claims == [claims[0]] + claims[1..];
    }
  }

  lemma {:induction false} FittingClaimsOf(st: StoreState, claims: seq<Claim>, r: Id)
    ensures ClaimsOf(Fitting(st, claims), r) == Fitting(st, ClaimsOf(claims, r))
  {
    if claims != [] {
      FittingClaimsOf(st, claims[1..], r);
      var rest, same := Fitting(st, claims[1..]), ClaimsOf(claims[1..], r);
      assert ([claims[0]] + rest)[1..] == rest && ([claims[0]] + same)[1..] == same;
      assert Fitting(st, claims) == if Wellplaced(st, claims[0].edge) then [claims[0]] + rest else rest;
      assert ClaimsOf(claims, r) == if claims[0].edge.retired == r then [claims[0]] + same else same;
    }
  }

  /** The replacements whose row is well placed among what was decoded. */
  function PlacedEdges(st: StoreState, edges: map<Id, Supersession>): map<Id, Supersession>
  {
    map r | r in edges && Wellplaced(st, edges[r]) :: edges[r]
  }

  lemma FittingRows(st: StoreState, edges: map<Id, Supersession>, claims: seq<Claim>)
    requires RowsOfEdges(edges, claims)
    ensures RowsOfEdges(PlacedEdges(st, edges), Fitting(st, claims))
  {
    FittingMembers(st, claims);
    forall r | r in PlacedEdges(st, edges) ensures |ClaimsOf(Fitting(st, claims), r)| == 1 {
      FittingClaimsOf(st, claims, r);
      ClaimsOfMembers(claims, r);
      var only := ClaimsOf(claims, r);
      assert only[0] in only && only == [only[0]] && only[1..] == [];
    }
  }

  lemma PlacedAcyclic(st: StoreState, edges: map<Id, Supersession>)
    requires Acyclic(ReplacementGraph(edges))
    ensures Acyclic(ReplacementGraph(PlacedEdges(st, edges)))
  {
    assert Subgraph(ReplacementGraph(PlacedEdges(st, edges)), ReplacementGraph(edges));
    SubgraphAcyclic(ReplacementGraph(PlacedEdges(st, edges)), ReplacementGraph(edges));
  }

  /** A replacement is published again exactly when both its records and its snapshot pass; proofs are not
      looked at, so it may name a record or a snapshot that the closure drops afterwards. */
  lemma EdgesReopenedExactly(st: StoreState, claims: seq<Claim>, r: Id)
    requires Sound(st) && RowsOfEdges(st.supersessions, claims) && r in st.supersessions
    ensures var edges := Published(Fitting(Decoded(RowsOf(st, claims)), claims));
            var e := st.supersessions[r];
            && (r in edges ==> edges[r] == e)
            && (r in edges <==> && RecordPasses(st.records[e.retired]) && RecordPasses(st.records[e.replacement])
                                && SnapshotPasses(st, st.snapshots[e.snapshot]))
  {
    var decoded, e := Decoded(RowsOf(st, claims)), st.supersessions[r];
    FittingRows(decoded, st.supersessions, claims);
    PlacedAcyclic(decoded, st.supersessions);
    EdgesPublished(PlacedEdges(decoded, st.supersessions), Fitting(decoded, claims));
    PlacedExactly(st, claims, e);
  }

  lemma PlacedExactly(st: StoreState, claims: seq<Claim>, e: Supersession)
    requires Sound(st) && Wellplaced(st, e)
    ensures Wellplaced(Decoded(RowsOf(st, claims)), e)
       <==> && RecordPasses(st.records[e.retired]) && RecordPasses(st.records[e.replacement])
            && SnapshotPasses(st, st.snapshots[e.snapshot])
  {
    assert RecordSound(st, e.retired) && RecordSound(st, e.replacement);
    RecordKeptExactly(st, claims, e.retired);
    RecordKeptExactly(st, claims, e.replacement);
    SnapshotKeptExactly(st, claims, e.snapshot);
  }

  // ---------------------------------------------------------------- everything

  /** Nothing that the tests of single rows would refuse. */
  ghost predicate RowsPass(st: StoreState)
  {
    && (forall x :: x in st.records ==> RecordPasses(st.records[x]))
    && forall r :: r in st.rules ==> RulePasses(st.rules[r])
  }

  /** What survives closing and reopening untouched. */
  ghost predicate Reopenable(st: StoreState)
  {
    RowsPass(st) && NoBorrowedProofs(st)
  }

  ghost predicate SameKnowledge(a: StoreState, b: StoreState)
  {
    && a.vocabulary == b.vocabulary && a.descriptions == b.descriptions && a.sources == b.sources
    && a.rules == b.rules && a.contexts == b.contexts && a.records == b.records && a.derivations == b.derivations
    && a.snapshots == b.snapshots && a.supersessions == b.supersessions
  }

  lemma DefinitionRowsKept(st: StoreState, claims: seq<Claim>)
    requires DefinitionsSound(st) && RowsPass(st)
    ensures RestoredRules(RowsOf(st, claims)) == st.rules && RestoredContexts(RowsOf(st, claims)) == st.contexts
  {
    var rules, contexts := RestoredRules(RowsOf(st, claims)), RestoredContexts(RowsOf(st, claims));
    forall r | r in st.rules ensures r in rules {
      RuleKeptExactly(st, claims, r);
    }
    forall c | c in st.contexts ensures c in contexts {
      ContextKeptExactly(st, claims, c);
    }
    KeptWhole(rules, st.rules);
    KeptWhole(contexts, st.contexts);
  }

  lemma RecordRowsKept(st: StoreState, claims: seq<Claim>)
    requires KnowledgeSound(st) && RowsPass(st)
    ensures RestoredRecords(RowsOf(st, claims)) == st.records
  {
    var records := RestoredRecords(RowsOf(st, claims));
    forall x | x in st.records ensures x in records {
      assert RecordSound(st, x);
      RecordKeptExactly(st, claims, x);
    }
    KeptWhole(records, st.records);
  }

  lemma ProofRowsKept(st: StoreState, claims: seq<Claim>)
    requires KnowledgeSound(st) && DefinitionsSound(st)
    ensures RestoredProofs(RowsOf(st, claims)) == st.derivations
  {
    var proofs := RestoredProofs(RowsOf(st, claims));
    forall d | d in st.derivations ensures d in proofs {
      ProofKept(st, claims, d);
    }
    KeptWhole(proofs, st.derivations);
  }

  lemma SnapshotRowsKept(st: StoreState, claims: seq<Claim>)
    requires KnowledgeSound(st) && DefinitionsSound(st) && RowsPass(st)
    ensures RestoredSnapshots(RowsOf(st, claims)) == st.snapshots
  {
    var snapshots := RestoredSnapshots(RowsOf(st, claims));
    forall s | s in st.snapshots ensures s in snapshots {
      SnapshotKeptExactly(st, claims, s);
      assert SnapshotSound(st, s);
    }
    KeptWhole(snapshots, st.snapshots);
  }

  lemma SameCandidates(st: StoreState, rows: Stored, kept: set<Id>)
    requires RestoredRecords(rows) == st.records && RestoredProofs(rows) == st.derivations && RestoredSnapshots(rows) == st.snapshots
    requires rows.sources == st.sources && kept == st.snapshots.Keys
    ensures CandidatesFrom(rows, kept) == Rows(st)
  {
    assert (map s | s in st.snapshots && s in kept :: st.snapshots[s]) == st.snapshots;
  }

  /** When all rows pass, the closure over proofs starts from the whole state. */
  lemma ClosureStartsWhole(st: StoreState, claims: seq<Claim>, kept: set<Id>)
    requires KnowledgeSound(st) && DefinitionsSound(st) && RowsPass(st)
    requires GreatestStanding(ActiveRules(RowsOf(st, claims)), ActiveContexts(RowsOf(st, claims)), RestoredSnapshots(RowsOf(st, claims)), kept)
    ensures CandidatesFrom(RowsOf(st, claims), kept) == Rows(st)
  {
    DefinitionRowsKept(st, claims);
    DefinitionsUpheld(st, claims);
    SnapshotRowsKept(st, claims);
    StandingWhole(st, kept);
    RecordRowsKept(st, claims);
    ProofRowsKept(st, claims);
    SameCandidates(st, RowsOf(st, claims), kept);
  }

  lemma EdgesKept(st: StoreState, claims: seq<Claim>)
    requires KnowledgeSound(st) && DefinitionsSound(st) && Acyclic(ReplacementGraph(st.supersessions))
    requires RowsPass(st) && RowsOfEdges(st.supersessions, claims)
    ensures Published(Fitting(Decoded(RowsOf(st, claims)), claims)) == st.supersessions
  {
    var decoded := Decoded(RowsOf(st, claims));
    RecordRowsKept(st, claims);
    SnapshotRowsKept(st, claims);
    forall r | r in st.supersessions ensures Wellplaced(decoded, st.supersessions[r]) {
      assert ReplacementSound(st, r);
    }
    FittingRows(decoded, st.supersessions, claims);
    KeptWhole(PlacedEdges(decoded, st.supersessions), st.supersessions);
    EdgesPublished(st.supersessions, Fitting(decoded, claims));
  }

  lemma RefusedRowIsLost(st: StoreState, claims: seq<Claim>, reopened: StoreState)
    requires Sound(st) && KnowledgeLoaded(RowsOf(st, claims), reopened) && SameKnowledge(reopened, st)
    ensures RowsPass(st)
  {
    var kept, invalid, invalidSnapshots :| ClosedFrom(RowsOf(st, claims), reopened, kept, invalid, invalidSnapshots);
    forall x | x in st.records ensures RecordPasses(st.records[x]) {
      assert RecordSound(st, x);
      RecordKeptExactly(st, claims, x);
    }
    forall r | r in st.rules ensures RulePasses(st.rules[r]) {
      RuleKeptExactly(st, claims, r);
      assert r in ActiveRules(RowsOf(st, claims));
    }
  }

  lemma ClosureExactly(st: StoreState, claims: seq<Claim>, reopened: StoreState)
    requires Sound(st) && KnowledgeLoaded(RowsOf(st, claims), reopened) && RowsPass(st)
    ensures reopened.records == st.records && reopened.derivations == st.derivations && reopened.snapshots == st.snapshots
       <==> NoBorrowedProofs(st)
  {
    var kept, invalid, invalidSnapshots :| ClosedFrom(RowsOf(st, claims), reopened, kept, invalid, invalidSnapshots);
    ClosureStartsWhole(st, claims, kept);
    ClosureKeepsExactly(st, Restored(reopened.records, reopened.derivations, reopened.snapshots, invalid, invalidSnapshots));
  }

  lemma DefinitionsReopened(st: StoreState, claims: seq<Claim>, reopened: StoreState)
    requires Sound(st) && RowsOfEdges(st.supersessions, claims) && KnowledgeLoaded(RowsOf(st, claims), reopened) && RowsPass(st)
    ensures reopened.rules == st.rules && reopened.contexts == st.contexts && reopened.supersessions == st.supersessions
  {
    DefinitionRowsKept(st, claims);
    DefinitionsUpheld(st, claims);
    EdgesKept(st, claims);
  }

  /**
   * Closing and reopening keeps the knowledge of a reachable state exactly when no relation names a proof
   * that is not its own, no relation repeats a participant before its last, and no rule repeats one at all.
   */
  lemma ReopenedExactly(st: StoreState, claims: seq<Claim>, reopened: StoreState)
    requires Sound(st) && RowsOfEdges(st.supersessions, claims) && KnowledgeLoaded(RowsOf(st, claims), reopened)
    ensures SameKnowledge(reopened, st) <==> Reopenable(st)
  {
    if SameKnowledge(reopened, st) {
      RefusedRowIsLost(st, claims, reopened);
    }
    if RowsPass(st) {
      ClosureExactly(st, claims, reopened);
      DefinitionsReopened(st, claims, reopened);
    }
  }

  // ---------------------------------------------------------------- a state as its own reopening

  lemma AllPublished(rows: Stored, st: StoreState)
    requires rows.rules == st.rules && rows.contexts == st.contexts && rows.records == st.records
    requires rows.derivations == st.derivations && rows.snapshots == st.snapshots
    requires RestoredRecords(rows) == st.records
    requires forall c :: c in rows.claims ==> c in Fitting(Decoded(rows), rows.claims) && c.edge.retired in st.supersessions
    ensures IsolatedRows(rows, st) == {}
  {
  }

  lemma AllFitting(st: StoreState, claims: seq<Claim>)
    requires KnowledgeSound(st) && DefinitionsSound(st) && RowsPass(st) && RowsOfEdges(st.supersessions, claims)
    ensures forall c :: c in claims ==> c in Fitting(Decoded(RowsOf(st, claims)), claims)
  {
    var decoded := Decoded(RowsOf(st, claims));
    RecordRowsKept(st, claims);
    SnapshotRowsKept(st, claims);
    FittingMembers(decoded, claims);
    forall c | c in claims ensures c in Fitting(decoded, claims) {
      assert ReplacementSound(st, c.edge.retired);
    }
  }

  lemma ClosesItself(st: StoreState, claims: seq<Claim>)
    requires KnowledgeSound(st) && DefinitionsSound(st) && GraphsSound(st) && Reopenable(st)
    ensures ClosedFrom(RowsOf(st, claims), st, st.snapshots.Keys, {}, {})
  {
    SnapshotRowsKept(st, claims);
    RecordRowsKept(st, claims);
    ProofRowsKept(st, claims);
    WholeIsStanding(st);
    SameCandidates(st, RowsOf(st, claims), st.snapshots.Keys);
    RestoredWhole(st);
  }

  /** Knowledge that is sound and reopenable is what its own rows are opened to. */
  lemma LoadsItself(st: StoreState, claims: seq<Claim>)
    requires KnowledgeSound(st) && DefinitionsSound(st) && GraphsSound(st) && Reopenable(st)
    requires st.isolated == {} && RowsOfEdges(st.supersessions, claims)
    ensures KnowledgeLoaded(RowsOf(st, claims), st)
  {
    DefinitionRowsKept(st, claims);
    DefinitionsUpheld(st, claims);
    EdgesKept(st, claims);
    RecordRowsKept(st, claims);
    AllFitting(st, claims);
    AllPublished(RowsOf(st, claims), st);
    ClosesItself(st, claims);
  }
}

/** What reopening loses, and runs from the empty store that come to it. */
module ReopeningWitnesses {
  import opened Graph
  import opened Grounding
  import opened Lineage
  import opened LineageTheorems
  import opened Model
  import opened Ordering
  import opened Reopening
  import opened ReopeningTheorems
  import opened RestoreClosure
  import opened Rules
  import opened RuleTheorems
  import Selections
  import opened StoreFrames
  import opened StoreInvariants
  import opened StoreSteps
  import opened StoreTheorems
  import opened SupersessionRestore
  import opened Supersessions

  // ---------------------------------------------------------------- what a refused row takes with it

  lemma DroppedSnapshot(st: StoreState, claims: seq<Claim>, reopened: StoreState, s: Id)
    requires KnowledgeSound(st) && DefinitionsSound(st) && KnowledgeLoaded(RowsOf(st, claims), reopened)
    requires s in st.snapshots && !SnapshotPasses(st, st.snapshots[s])
    ensures s !in reopened.snapshots
  {
    var kept, invalid, invalidSnapshots :| ClosedFrom(RowsOf(st, claims), reopened, kept, invalid, invalidSnapshots);
    SnapshotKeptExactly(st, claims, s);
  }

  lemma RefusedEdge(st: StoreState, claims: seq<Claim>, reopened: StoreState, r: Id)
    requires Sound(st) && RowsOfEdges(st.supersessions, claims) && KnowledgeLoaded(RowsOf(st, claims), reopened)
    requires r in st.supersessions && st.supersessions[r].snapshot in st.snapshots
    requires !SnapshotPasses(st, st.snapshots[st.supersessions[r].snapshot])
    ensures r !in reopened.supersessions
  {
    EdgesReopenedExactly(st, claims, r);
  }

  /** The replacement of `r` was made at a snapshot that holds `x`. */
  predicate MadeAmid(st: StoreState, r: Id, x: Id)
  {
    && r in st.supersessions && st.supersessions[r].snapshot in st.snapshots
    && x in st.snapshots[st.supersessions[r].snapshot].records
  }

  lemma HolderFalls(st: StoreState, claims: seq<Claim>, reopened: StoreState, x: Id, s: Id)
    requires Sound(st) && RowsOfEdges(st.supersessions, claims) && KnowledgeLoaded(RowsOf(st, claims), reopened)
    requires x in st.records && !RecordPasses(st.records[x]) && s in st.snapshots && x in st.snapshots[s].records
    ensures s !in reopened.snapshots
    ensures forall r :: r in st.supersessions && st.supersessions[r].snapshot == s ==> r !in reopened.supersessions
  {
    assert !SnapshotPasses(st, st.snapshots[s]);
    DroppedSnapshot(st, claims, reopened, s);
    forall r | r in st.supersessions && st.supersessions[r].snapshot == s ensures r !in reopened.supersessions {
      RefusedEdge(st, claims, reopened, r);
    }
  }

  /** A relation whose participants repeat before the last is lost with its proof, with every snapshot that
      holds it and with every replacement made at such a snapshot. */
  lemma RefusedRelationTakesDown(st: StoreState, claims: seq<Claim>, reopened: StoreState, x: Id)
    requires Sound(st) && RowsOfEdges(st.supersessions, claims) && KnowledgeLoaded(RowsOf(st, claims), reopened)
    requires x in st.records && !RecordPasses(st.records[x])
    ensures st.records[x].derivation.Some? && x !in reopened.records && x !in reopened.derivations
    ensures forall s :: s in st.snapshots && x in st.snapshots[s].records ==> s !in reopened.snapshots
    ensures forall r :: MadeAmid(st, r, x) ==> r !in reopened.supersessions
  {
    RefusedRecord(st, claims, reopened, x);
    forall s | s in st.snapshots && x in st.snapshots[s].records ensures s !in reopened.snapshots {
      HolderFalls(st, claims, reopened, x, s);
    }
    forall r | MadeAmid(st, r, x) ensures r !in reopened.supersessions {
      HolderFalls(st, claims, reopened, x, st.supersessions[r].snapshot);
    }
  }

  lemma RefusedRecord(st: StoreState, claims: seq<Claim>, reopened: StoreState, x: Id)
    requires Sound(st) && KnowledgeLoaded(RowsOf(st, claims), reopened)
    requires x in st.records && !RecordPasses(st.records[x])
    ensures x !in reopened.records && x !in reopened.derivations
    ensures st.records[x].Relation? && st.records[x].derivation.Some?
  {
    var rows := RowsOf(st, claims);
    assert RecordSound(st, x);
    RecordKeptExactly(st, claims, x);
    var kept, invalid, invalidSnapshots :| ClosedFrom(rows, reopened, kept, invalid, invalidSnapshots);
    if x in reopened.derivations {
      PublishedSound(CandidatesFrom(rows, kept), Restored(reopened.records, reopened.derivations, reopened.snapshots, invalid, invalidSnapshots));
    }
  }

  /** A rule that repeats a participant is lost with every context that enables it and every snapshot that
      fixes it, and it could not be grounded before either. */
  lemma RepeatedRuleTakesDown(st: StoreState, claims: seq<Claim>, reopened: StoreState, r: Id)
    requires Sound(st) && KnowledgeLoaded(RowsOf(st, claims), reopened) && r in st.rules && !RulePasses(st.rules[r])
    ensures r !in reopened.rules
    ensures forall c :: c in st.contexts && r in st.contexts[c].enabled ==> c !in reopened.contexts
    ensures forall s :: s in st.snapshots && r in st.snapshots[s].rules ==> s !in reopened.snapshots
  {
    RuleKeptExactly(st, claims, r);
    forall c | c in st.contexts && r in st.contexts[c].enabled ensures c !in reopened.contexts {
      ContextKeptExactly(st, claims, c);
    }
    forall s | s in st.snapshots && r in st.snapshots[s].rules ensures s !in reopened.snapshots {
      assert SnapshotSound(st, s);
      DroppedSnapshot(st, claims, reopened, s);
    }
  }

  lemma FittingAreDistinct(bindings: map<string, Id>, names: seq<string>, snapshot: Snapshot)
    requires BindingsFit(bindings, names, snapshot)
    ensures DistinctNames(names)
  {
    Selections.DistinctCounts(names);
    assert (set x | x in names) == bindings.Keys;
  }

  lemma RepeatedNeverGrounds(st: StoreState, rule: Id, bindings: map<string, Id>, snapshot: Id, context: Id, effective: set<Id>)
    requires snapshot in st.snapshots && rule in st.snapshots[snapshot].rules && !RulePasses(st.snapshots[snapshot].rules[rule])
    ensures Ground(st, rule, bindings, snapshot, context, effective).Err?
  {
    if Groundable(st, rule, bindings, snapshot, context) {
      FittingAreDistinct(bindings, st.snapshots[snapshot].rules[rule].body.participants, st.snapshots[snapshot]);
    }
  }

  // ---------------------------------------------------------------- a rule with a repeated participant

  lemma AdmitNext(st: StoreState, items: seq<Item>, next: StoreState, final: StoreState)
    requires items != [] && AdmitItem(st, items[0]) == Ok(next) && AdmitAll(next, items[1..]) == Ok(final)
    ensures AdmitAll(st, items) == Ok(final)
  {
  }

  function SubsetOf(participant: string): Expr
  {
    var leaf := Node("property", participant, "p", Version("1"), NotAnObject, NotAnObject, None);
    Node("set_subset", "", "", NoVersion, leaf, leaf, None)
  }

  lemma SubsetAdmitted(vocabulary: Vocabulary, head: Head, participant: string)
    requires ("p", "1") in vocabulary.properties && vocabulary.properties[("p", "1")] == FiniteSetKind
    requires participant != "" && participant in head.participants && HeadFits(vocabulary, RuleBody(head.participants, head, SubsetOf(participant)))
    ensures var body := RuleBody(head.participants, head, SubsetOf(participant));
            AdmitRule(vocabulary, "1", body) == Ok(Rule("1", body, true))
  {
    var e := SubsetOf(participant);
    assert Normalize(vocabulary, e.left) == Ok(e.left) && Normalize(vocabulary, e.right) == Ok(e.right);
    assert e.(left := e.left, right := e.right) == e;
    assert CheckExpr(head.participants, vocabulary, true, e.left) == Ok(Some(OfKind(FiniteSetKind)));
    assert CheckExpr(head.participants, vocabulary, true, e) == Ok(Some(Truthful));
    assert OperandSupported(e.left) && OperandSupported(e.right) && Rules.Supported(e);
  }

  function TwiceBody(): RuleBody
  {
    RuleBody(["x", "x"], Head("related", "1", ["x", "x"], Positive), SubsetOf("x"))
  }

  lemma TwiceAdmitted(st: StoreState)
    requires st.vocabulary == Vocabulary(map[("related", "1") := 2], map[("p", "1") := FiniteSetKind]) && st.rules == map[] && st.isolated == {}
    ensures AdmitItem(st, RuleItem("twice", "1", TwiceBody())) == Ok(st.(rules := map["twice" := Rule("1", TwiceBody(), true)]))
  {
    SeemsDistinctExactly(["x", "x"]);
    assert HeadFits(st.vocabulary, TwiceBody());
    SubsetAdmitted(st.vocabulary, TwiceBody().head, "x");
  }

  /** The participants x, x pass admission: the repetition is in the last place. */
  lemma RepeatedRuleIsReachable() returns (steps: seq<Step>)
    ensures var rules := Run(EmptyStore(), steps).rules; "twice" in rules && rules["twice"].supported && !RulePasses(rules["twice"])
  {
    var vocabulary := Vocabulary(map[("related", "1") := 2], map[("p", "1") := FiniteSetKind]);
    var items := [RuleItem("twice", "1", TwiceBody())];
    steps := [ConfigureVocabulary(vocabulary), Admit(items)];
    var s0 := Configured(EmptyStore(), vocabulary).value;
    assert s0 == EmptyStore().(vocabulary := vocabulary);
    TwiceAdmitted(s0);
    var s1 := s0.(rules := map["twice" := Rule("1", TwiceBody(), true)]);
    assert items[1..] == [];
    AdmitNext(s0, items, s1, s1);
    RunTwo(EmptyStore(), steps[0], steps[1], s0, s1);
    assert TwiceBody().participants[0] == TwiceBody().participants[1];
  }

  lemma RunTwo(st: StoreState, first: Step, second: Step, between: StoreState, end: StoreState)
    requires Apply(st, first) == Ok(between) && Apply(between, second) == Ok(end)
    ensures Run(st, [first, second]) == end
  {
    assert After(st, first) == between && After(between, second) == end;
    assert [first, second][1..] == [second] && [second][1..] == [];
    assert Run(between, [second]) == Run(end, []);
  }

  lemma {:induction false} RunMore(st: StoreState, steps: seq<Step>, last: Step)
    ensures Run(st, steps + [last]) == After(Run(st, steps), last)
    decreases |steps|
  {
    if steps == [] {
      assert [last][1..] == [] && steps + [last] == [last];
    } else {
      assert (steps + [last])[1..] == steps[1..] + [last];
      RunMore(After(st, steps[0]), steps[1..], last);
    }
  }

  // ---------------------------------------------------------------- a replacement left dangling

  lemma BorrowedFalls(st: StoreState, claims: seq<Claim>, reopened: StoreState, x: Id)
    requires Sound(st) && RowsPass(st) && KnowledgeLoaded(RowsOf(st, claims), reopened)
    requires x in st.records && st.records[x].Relation? && st.records[x].derivation.Some? && x !in st.derivations
    ensures x !in reopened.records && forall s :: s in reopened.snapshots ==> x !in reopened.snapshots[s].records
  {
    var rows := RowsOf(st, claims);
    var kept, invalid, invalidSnapshots :| ClosedFrom(rows, reopened, kept, invalid, invalidSnapshots);
    var r := Restored(reopened.records, reopened.derivations, reopened.snapshots, invalid, invalidSnapshots);
    ClosureStartsWhole(st, claims, kept);
    BorrowedIsLost(st, r, x);
    assert Keyed(CandidatesFrom(rows, kept));
    PublishedSound(CandidatesFrom(rows, kept), r);
  }

  /** Replacements are restored before proofs are looked at. When the replacing relation borrows a proof, its
      edge is published again although the relation and the snapshot of the edge are dropped afterwards. */
  lemma BorrowedReplacementDangles(st: StoreState, claims: seq<Claim>, reopened: StoreState, r: Id)
    requires Sound(st) && RowsPass(st) && RowsOfEdges(st.supersessions, claims) && KnowledgeLoaded(RowsOf(st, claims), reopened)
    requires r in st.supersessions
    requires var x := st.supersessions[r].replacement;
             x in st.records && st.records[x].Relation? && st.records[x].derivation.Some? && x !in st.derivations
    ensures r in reopened.supersessions && reopened.supersessions[r] == st.supersessions[r]
    ensures st.supersessions[r].replacement !in reopened.records && st.supersessions[r].snapshot !in reopened.snapshots
    ensures !Sound(reopened)
  {
    EdgesKept(st, claims);
    var e := st.supersessions[r];
    assert ReplacementSound(st, r);
    BorrowedFalls(st, claims, reopened, e.replacement);
    if e.snapshot in reopened.snapshots {
      SnapshotsUnchanged(st, claims, reopened, e.snapshot);
    }
    assert !ReplacementSound(reopened, r);
  }

  lemma SnapshotsUnchanged(st: StoreState, claims: seq<Claim>, reopened: StoreState, s: Id)
    requires KnowledgeLoaded(RowsOf(st, claims), reopened) && s in reopened.snapshots
    ensures s in st.snapshots && reopened.snapshots[s] == st.snapshots[s]
  {
    var kept, invalid, invalidSnapshots :| ClosedFrom(RowsOf(st, claims), reopened, kept, invalid, invalidSnapshots);
  }

  function Plain(id: Id, derivation: Option<Id>): Record
  {
    Relation(id, "related", "1", ["thing"], Positive, One("here"), Exact, ["book"], derivation)
  }

  /** Two relations of one slot, of which the second borrows a proof. */
  function DanglingBase(): StoreState
  {
    EmptyStore().(vocabulary := Vocabulary(map[("related", "1") := 1], map[]), descriptions := {"thing"}, sources := {"book"},
                  records := map["old" := Plain("old", None), "new" := Plain("new", Some("new"))])
  }

  function DanglingItems(): seq<Item>
  {
    [DescriptionItem("thing"), SourceItem("book"), RecordItem(Plain("old", None)), RecordItem(Plain("new", Some("new")))]
  }

  function DanglingVocabulary(): Step
  {
    ConfigureVocabulary(Vocabulary(map[("related", "1") := 1], map[]))
  }

  lemma DanglingAdmitted(s0: StoreState)
    requires s0 == EmptyStore().(vocabulary := Vocabulary(map[("related", "1") := 1], map[]))
    ensures AdmitAll(s0, DanglingItems()) == Ok(DanglingBase())
  {
    var items := DanglingItems();
    var s1 := s0.(descriptions := {"thing"});
    var s2 := s1.(sources := {"book"});
    var s3 := s2.(records := map["old" := Plain("old", None)]);
    var s4 := DanglingBase();
    var none: set<Id> := {};
    assert none + {"thing"} == {"thing"} && none + {"book"} == {"book"};
    SeemsDistinctExactly(["thing"]);
    assert RecordFits(s2, Plain("old", None)) && RecordFits(s3, Plain("new", Some("new")));
    assert s4.records == s3.records["new" := Plain("new", Some("new"))];
    AdmitNext(s3, items[3..], s4, s4);
    AdmitNext(s2, items[2..], s3, s4);
    AdmitNext(s1, items[1..], s2, s4);
    AdmitNext(s0, items, s1, s4);
  }

  lemma DanglingBegun() returns (s0: StoreState)
    ensures Apply(EmptyStore(), DanglingVocabulary()) == Ok(s0) && Apply(s0, Admit(DanglingItems())) == Ok(DanglingBase())
  {
    s0 := EmptyStore().(vocabulary := Vocabulary(map[("related", "1") := 1], map[]));
    assert Configured(EmptyStore(), s0.vocabulary).value.vocabulary == s0.vocabulary;
    DanglingAdmitted(s0);
  }

  lemma FirstEdge(st: StoreState, e: Supersession)
    requires st.supersessions == map[] && st.isolated == {} && Wellplaced(st, e)
    ensures Superseded(st, e) == Ok(WithEdge(st, e))
  {
    var g := ReplacementGraph(st.supersessions);
    assert forall x, y :: !Edge(g, x, y);
    if Reach(g, e.replacement, e.retired) {
      ClosedReach(g, {e.replacement}, e.replacement, e.retired);
    }
    AdmissibleExactly(st, e);
  }

  lemma DanglingPlaced(st: StoreState)
    requires st.records == DanglingBase().records && "s" in st.snapshots
    requires "old" in st.snapshots["s"].records && "new" in st.snapshots["s"].records
    ensures Wellplaced(st, Supersession("old", "new", "s"))
  {
  }

  lemma TakenHolds(st: StoreState, id: Id) returns (taken: StoreState)
    requires id !in st.snapshots && st.isolated == {}
    ensures Taken(st, id, None) == Ok(taken) && taken == st.(snapshots := taken.snapshots) && id in taken.snapshots
    ensures forall x :: x in st.records ==> x in taken.snapshots[id].records
  {
    taken := Taken(st, id, None).value;
  }

  lemma DanglingTaken() returns (taken: StoreState)
    ensures Taken(DanglingBase(), "s", None) == Ok(taken) && taken == DanglingBase().(snapshots := taken.snapshots)
    ensures Superseded(taken, Supersession("old", "new", "s")) == Ok(WithEdge(taken, Supersession("old", "new", "s")))
  {
    taken := TakenHolds(DanglingBase(), "s");
    DanglingPlaced(taken);
    FirstEdge(taken, Supersession("old", "new", "s"));
  }

  lemma TakeApplies(st: StoreState, id: Id, taken: StoreState)
    requires Taken(st, id, None) == Ok(taken)
    ensures Apply(st, TakeSnapshot(id, None)) == Ok(taken)
  {
  }

  lemma SupersedeApplies(st: StoreState, e: Supersession, end: StoreState)
    requires Superseded(st, e) == Ok(end)
    ensures Apply(st, Supersede(e.retired, e.replacement, e.snapshot)) == Ok(end)
  {
    assert Supersession(e.retired, e.replacement, e.snapshot) == e;
  }

  lemma DanglingPasses(st: StoreState)
    requires st.records == DanglingBase().records && st.rules == map[]
    ensures RowsPass(st)
  {
    SeemsDistinctExactly(["thing"]);
  }

  /** An ordinary run comes to a state after whose reopening a replacement dangles. */
  lemma DanglingIsReachable() returns (steps: seq<Step>)
    ensures var st := Run(EmptyStore(), steps);
            && RowsPass(st) && "old" in st.supersessions && st.supersessions["old"] == Supersession("old", "new", "s")
            && "new" in st.records && st.records["new"] == Plain("new", Some("new")) && "new" !in st.derivations
  {
    var begun := DanglingBegun();
    var taken := DanglingTaken();
    var st := WithEdge(taken, Supersession("old", "new", "s"));
    steps := [DanglingVocabulary(), Admit(DanglingItems()), TakeSnapshot("s", None), Supersede("old", "new", "s")];
    TakeApplies(DanglingBase(), "s", taken);
    SupersedeApplies(taken, Supersession("old", "new", "s"), st);
    RunFour(EmptyStore(), steps[0], steps[1], steps[2], steps[3], begun, DanglingBase(), taken, st);
    DanglingPasses(st);
  }

  lemma RunFour(st: StoreState, first: Step, second: Step, third: Step, fourth: Step,
                one: StoreState, two: StoreState, three: StoreState, four: StoreState)
    requires Apply(st, first) == Ok(one) && Apply(one, second) == Ok(two)
    requires Apply(two, third) == Ok(three) && Apply(three, fourth) == Ok(four)
    ensures Run(st, [first, second, third, fourth]) == four
  {
    RunTwo(two, third, fourth, three, four);
    assert [first, second, third, fourth][1..] == [second, third, fourth];
    assert [second, third, fourth][1..] == [third, fourth];
    assert Run(one, [second, third, fourth]) == Run(two, [third, fourth]);
  }
}

/** Inputs on which replacements do more than it seems: an edge that hides its replacement on a branch where it
    is not visible, and an edge that is dropped although it lies on no cycle. */
module EdgeWitnesses {
  import opened Graph
  import opened Lineage
  import opened LineageTheorems
  import opened Model
  import opened Ordering
  import opened Reopening
  import opened ReopeningTheorems
  import opened ReopeningWitnesses
  import opened RestoreClosure
  import opened Rules
  import opened RuleTheorems
  import opened StoreInvariants
  import opened StoreSteps
  import opened StoreTheorems
  import opened SupersessionRestore
  import opened Supersessions

  // ---------------------------------------------------------------- hidden on another branch

  function ForkVocabulary(): Vocabulary
  {
    Vocabulary(map[("related", "1") := 1], map[])
  }

  function ForkItems(): seq<Item>
  {
    [DescriptionItem("thing"), SourceItem("book"), RecordItem(Plain("old", None)), RecordItem(Plain("new", None))]
  }

  function ForkBase(): StoreState
  {
    EmptyStore().(vocabulary := ForkVocabulary(), descriptions := {"thing"}, sources := {"book"},
                  records := map["old" := Plain("old", None), "new" := Plain("new", None)])
  }

  lemma ForkAdmitted(s0: StoreState)
    requires s0 == EmptyStore().(vocabulary := ForkVocabulary())
    ensures AdmitAll(s0, ForkItems()) == Ok(ForkBase())
  {
    var items := ForkItems();
    var s1 := s0.(descriptions := {"thing"});
    var s2 := s1.(sources := {"book"});
    var s3 := s2.(records := map["old" := Plain("old", None)]);
    var s4 := ForkBase();
    var none: set<Id> := {};
    assert none + {"thing"} == {"thing"} && none + {"book"} == {"book"};
    SeemsDistinctExactly(["thing"]);
    assert RecordFits(s2, Plain("old", None)) && RecordFits(s3, Plain("new", None));
    assert s4.records == s3.records["new" := Plain("new", None)];
    AdmitNext(s3, items[3..], s4, s4);
    AdmitNext(s2, items[2..], s3, s4);
    AdmitNext(s1, items[1..], s2, s4);
    AdmitNext(s0, items, s1, s4);
  }

  lemma ForkBegun() returns (steps: seq<Step>)
    ensures Run(EmptyStore(), steps) == ForkBase()
  {
    var s0 := EmptyStore().(vocabulary := ForkVocabulary());
    assert Configured(EmptyStore(), ForkVocabulary()).value.vocabulary == ForkVocabulary();
    ForkAdmitted(s0);
    steps := [ConfigureVocabulary(ForkVocabulary()), Admit(ForkItems())];
    RunTwo(EmptyStore(), steps[0], steps[1], s0, ForkBase());
  }

  /** A further snapshot, below an earlier one or at the root. */
  lemma Branch(st: StoreState, steps: seq<Step>, id: Id, parent: Option<Id>) returns (longer: seq<Step>, taken: StoreState)
    requires Run(EmptyStore(), steps) == st && id !in st.snapshots && st.isolated == {}
    requires parent.Some? ==> parent.value in st.snapshots
    ensures Run(EmptyStore(), longer) == taken && taken == st.(snapshots := taken.snapshots)
    ensures id in taken.snapshots && taken.snapshots == st.snapshots[id := taken.snapshots[id]] && taken.snapshots[id].parent == parent
    ensures forall x :: x in st.records ==> x in taken.snapshots[id].records
  {
    taken := Taken(st, id, parent).value;
    longer := steps + [TakeSnapshot(id, parent)];
    RunMore(EmptyStore(), steps, TakeSnapshot(id, parent));
  }

  /** A root with two children, all three holding both records. */
  ghost predicate Forked(st: StoreState)
  {
    && st == ForkBase().(snapshots := st.snapshots) && st.snapshots.Keys == {"root", "left", "right"}
    && st.snapshots["root"].parent == None && st.snapshots["left"].parent == Some("root") && st.snapshots["right"].parent == Some("root")
    && forall s :: s in st.snapshots ==> "old" in st.snapshots[s].records && "new" in st.snapshots[s].records
  }

  lemma ForkMade(root: StoreState, left: StoreState, right: StoreState)
    requires root == ForkBase().(snapshots := root.snapshots) && left == root.(snapshots := left.snapshots)
    requires right == left.(snapshots := right.snapshots)
    requires root.snapshots.Keys == {"root"} && root.snapshots["root"].parent == None
    requires left.snapshots.Keys == {"root", "left"} && left.snapshots["root"] == root.snapshots["root"]
    requires right.snapshots.Keys == {"root", "left", "right"} && right.snapshots["root"] == root.snapshots["root"]
    requires right.snapshots["left"] == left.snapshots["left"]
    requires left.snapshots["left"].parent == Some("root") && right.snapshots["right"].parent == Some("root")
    requires forall x :: x in {"old", "new"} ==>
               x in root.snapshots["root"].records && x in left.snapshots["left"].records && x in right.snapshots["right"].records
    ensures Forked(right)
  {
  }

  lemma ForkReached() returns (steps: seq<Step>)
    ensures Forked(Run(EmptyStore(), steps))
  {
    var one := ForkBegun();
    var two, root := Branch(ForkBase(), one, "root", None);
    var three, left := Branch(root, two, "left", Some("root"));
    var right;
    steps, right := Branch(left, three, "right", Some("root"));
    ForkMade(root, left, right);
  }

  lemma RightIsApart(st: StoreState)
    requires Forked(st)
    ensures !Descends(st.snapshots, "right", "left")
  {
    ForkCloses(st.snapshots);
    if Reach(ParentGraph(st.snapshots), "right", "left") {
      ClosedReach(ParentGraph(st.snapshots), {"right", "root"}, "right", "left");
    }
  }

  lemma ForkCloses(snapshots: map<Id, Snapshot>)
    requires snapshots.Keys == {"root", "left", "right"}
    requires snapshots["root"].parent == None && snapshots["right"].parent == Some("root")
    ensures Closed(ParentGraph(snapshots), {"right", "root"})
  {
  }

  lemma UnreplacedIsEffective(st: StoreState, s: Id, x: Id)
    requires s in st.snapshots && st.derivations == map[] && x in st.snapshots[s].records
    requires x !in Visible(st, s) && (x in Targets(st.supersessions, st.supersessions.Keys) ==> x in Targets(st.supersessions, Visible(st, s)))
    ensures x in Effective(st, s)
  {
    EffectiveUnfolds(st, s, x);
  }

  /** At the right the new record is effective before the edge is made at the left and hidden afterwards, while
      the old record stays effective. */
  lemma HiddenOnOtherBranch(st: StoreState)
    requires Forked(st)
    ensures var e := Supersession("old", "new", "left");
            && Superseded(st, e) == Ok(WithEdge(st, e)) && !Descends(st.snapshots, "right", "left")
            && "new" in Effective(st, "right") && "new" !in Effective(WithEdge(st, e), "right")
            && "old" in Effective(WithEdge(st, e), "right")
  {
    var e := Supersession("old", "new", "left");
    var later := WithEdge(st, e);
    FirstEdge(st, e);
    RightIsApart(st);
    assert Visible(st, "right") == {} && Visible(later, "right") == {};
    UnreplacedIsEffective(st, "right", "new");
    assert Targets(later.supersessions, later.supersessions.Keys) == {"new"};
    UnreplacedIsEffective(later, "right", "old");
    assert later.supersessions["old"].replacement == "new";
    assert "new" !in Base(later, "right");
    assert Effective(later, "right") <= Base(later, "right");
  }

  /** Such a state is reached by an ordinary run. */
  lemma HiddenIsReachable() returns (steps: seq<Step>)
    ensures var st, e := Run(EmptyStore(), steps), Supersession("old", "new", "left");
            && "right" in st.snapshots && Superseded(st, e) == Ok(WithEdge(st, e)) && !Descends(st.snapshots, "right", "left")
            && "new" in Effective(st, "right") && "new" !in Effective(WithEdge(st, e), "right")
            && "old" in Effective(WithEdge(st, e), "right")
  {
    steps := ForkReached();
    HiddenOnOtherBranch(Run(EmptyStore(), steps));
  }

  // ---------------------------------------------------------------- dropped without a cycle

  function TailRecords(): map<Id, Record>
  {
    map["a" := Plain("a", None), "b" := Plain("b", None), "c" := Plain("c", None)]
  }

  function TailSnapshot(): Snapshot
  {
    Snapshot("s", None, ["a", "b", "c"], map["related" := "1"], map[], map[], map[], {"thing"})
  }

  /** Three relations of one slot, held by one snapshot. */
  function TailKnowledge(): StoreState
  {
    EmptyStore().(vocabulary := ForkVocabulary(), descriptions := {"thing"}, sources := {"book"}, records := TailRecords(),
                  snapshots := map["s" := TailSnapshot()])
  }

  /** The edge from a leads into the circle of b and c; every record is retired by one row. */
  function TailClaims(): seq<Claim>
  {
    [Claim("1", Supersession("a", "b", "s")), Claim("2", Supersession("b", "c", "s")), Claim("3", Supersession("c", "b", "s"))]
  }

  function TailRows(): Stored
  {
    RowsOf(TailKnowledge(), TailClaims())
  }

  lemma PlainRowFits(rows: Stored, x: Id)
    requires rows.vocabulary == ForkVocabulary() && rows.descriptions == {"thing"} && rows.sources == {"book"}
    ensures RecordRowFits(rows, x, Plain(x, None))
  {
    SeemsDistinctExactly(["thing"]);
  }

  lemma TailRecordsRestored()
    ensures RestoredRecords(TailRows()) == TailRecords()
  {
    PlainRowFits(TailRows(), "a");
    PlainRowFits(TailRows(), "b");
    PlainRowFits(TailRows(), "c");
  }

  lemma TailSnapshotFits()
    ensures SnapshotRowFits(TailRows(), TailRecords(), "s", TailSnapshot())
  {
  }

  lemma TailSnapshotRestored()
    ensures RestoredSnapshots(TailRows()) == map["s" := TailSnapshot()]
  {
    TailRecordsRestored();
    TailSnapshotFits();
    SnapshotPlaced(TailRows(), "s");
  }

  lemma {:induction false} FittingAll(st: StoreState, claims: seq<Claim>)
    requires forall c :: c in claims ==> Wellplaced(st, c.edge)
    ensures Fitting(st, claims) == claims
  {
    if claims != [] {
      assert claims[0] in claims && forall c :: c in claims[1..] ==> c in claims;
      FittingAll(st, claims[1..]);
      assert claims == [claims[0]] + claims[1..];
    }
  }

  lemma TailFits()
    ensures Fitting(Decoded(TailRows()), TailClaims()) == TailClaims()
  {
    TailRecordsRestored();
    TailSnapshotRestored();
    var decoded := Decoded(TailRows());
    assert decoded.records == TailRecords() && decoded.snapshots == map["s" := TailSnapshot()];
    assert forall x :: x in ["a", "b", "c"] <==> x == "a" || x == "b" || x == "c";
    forall c | c in TailClaims() ensures Wellplaced(decoded, c.edge) {
    }
    FittingAll(decoded, TailClaims());
  }

  function TailEdges(): map<Id, Supersession>
  {
    map["a" := Supersession("a", "b", "s"), "b" := Supersession("b", "c", "s"), "c" := Supersession("c", "b", "s")]
  }

  lemma ClaimsStep(c: Claim, rest: seq<Claim>, r: Id)
    ensures ClaimsOf([c] + rest, r) == if c.edge.retired == r then [c] + ClaimsOf(rest, r) else ClaimsOf(rest, r)
  {
    assert ([c] + rest)[0] == c && ([c] + rest)[1..] == rest;
  }

  lemma ThreeClaims(x: Claim, y: Claim, z: Claim, r: Id)
    requires x.edge.retired != y.edge.retired && x.edge.retired != z.edge.retired && y.edge.retired != z.edge.retired
    requires r in {x.edge.retired, y.edge.retired, z.edge.retired}
    ensures |ClaimsOf([x, y, z], r)| == 1
  {
    ClaimsStep(x, [y, z], r);
    ClaimsStep(y, [z], r);
    ClaimsStep(z, [], r);
    assert [x, y, z] == [x] + [y, z] && [y, z] == [y] + [z] && [z] == [z] + [];
  }

  lemma TailUnique()
    ensures UniqueEdges(TailClaims()) == TailEdges()
  {
    var claims := TailClaims();
    forall r | r in TailEdges() ensures |ClaimsOf(claims, r)| == 1 {
      ThreeClaims(claims[0], claims[1], claims[2], r);
    }
    EachEdgeUnique(TailEdges(), claims);
  }

  function TailLinks(): map<Id, Id>
  {
    map["a" := "b", "b" := "c", "c" := "b"]
  }

  lemma TailLeads()
    ensures OnCycle(Links(TailLinks()), "b") && Reach(Links(TailLinks()), "a", "b") && !OnCycle(Links(TailLinks()), "a")
  {
    var g := Links(TailLinks());
    assert Edge(g, "a", "b") && Edge(g, "b", "c") && Edge(g, "c", "b");
    ReachEdge(g, "a", "b");
    ReachEdge(g, "c", "b");
    assert Closed(g, {"b", "c"});
    if OnCycle(g, "a") {
      var y :| Edge(g, "a", y) && Reach(g, y, "a");
      ClosedReach(g, {"b", "c"}, y, "a");
    }
  }

  lemma TailFirst()
    ensures FirstTo(TailLinks(), "a", "b")
  {
    TailLeads();
    assert Below("a", "b") && Below("a", "c");
  }

  /** The first name that leads to a cycle is dropped, on the cycle or not. */
  lemma FirstIsDropped(claims: seq<Claim>, s: Id, c: Id)
    requires s in UniqueEdges(claims) && FirstTo(Replacements(UniqueEdges(claims)), s, c)
    ensures s !in Published(claims)
  {
    var next := Replacements(UniqueEdges(claims));
    ReachSelf(Links(next), s);
    assert First(next, s);
    assert s in Dropped(next, next.Keys);
  }

  lemma TailGraph(edges: map<Id, Supersession>)
    requires edges == TailEdges()
    ensures Replacements(edges) == TailLinks() && "a" in edges
  {
  }

  lemma TailGone(claims: seq<Claim>)
    requires UniqueEdges(claims) == TailEdges()
    ensures "a" in UniqueEdges(claims) && !OnCycle(Links(Replacements(UniqueEdges(claims))), "a")
    ensures "a" !in Published(claims)
  {
    TailGraph(UniqueEdges(claims));
    TailLeads();
    TailFirst();
    FirstIsDropped(claims, "a", "b");
  }

  lemma TailPlaced()
    ensures forall c :: c in TailClaims() ==> Wellplaced(Decoded(TailRows()), c.edge)
  {
    TailFits();
    FittingMembers(Decoded(TailRows()), TailClaims());
  }

  lemma OpenedEdges(rows: Stored, st: StoreState, claims: seq<Claim>)
    requires KnowledgeLoaded(rows, st) && Fitting(Decoded(rows), rows.claims) == claims
    ensures st.supersessions == Published(claims)
  {
  }

  /** Whatever state the file is opened to: the rows are in their place, the edge of a is claimed once and lies on
      no cycle, and it is gone. */
  lemma TailIsDropped(claims: seq<Claim>, st: StoreState)
    requires claims == TailClaims() && LoadedFrom(TailRows(), st)
    ensures forall c :: c in claims ==> Wellplaced(Decoded(TailRows()), c.edge)
    ensures "a" in UniqueEdges(claims) && !OnCycle(Links(Replacements(UniqueEdges(claims))), "a")
    ensures "a" !in st.supersessions
  {
    TailPlaced();
    TailUnique();
    TailFits();
    OpenedEdges(TailRows(), st, claims);
    TailGone(claims);
  }
}

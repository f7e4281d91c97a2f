/** A run that derives a relation which reopening refuses: a rule of three distinct participants, grounded
    with the same description for the first two of them. */
module RepeatedConclusion {
  import opened Graph
  import opened Grounding
  import opened Lineage
  import opened LineageTheorems
  import opened Model
  import opened Ordering
  import opened ReopeningTheorems
  import opened ReopeningWitnesses
  import opened RestoreClosure
  import opened Rules
  import opened RuleTheorems
  import opened StoreInvariants
  import opened StoreSteps
  import opened StoreTheorems

  function LinkVocabulary(): Vocabulary
  {
    Vocabulary(map[("linked", "1") := 3], map[("p", "1") := FiniteSetKind])
  }

  function Fact(): Record
  {
    Property("fact", "d", "p", "1", FiniteSet([]), "here", Exact, ["book"])
  }

  function LinkHead(): Head
  {
    Head("linked", "1", ["a", "b", "c"], Positive)
  }

  function LinkBody(): RuleBody
  {
    RuleBody(["a", "b", "c"], LinkHead(), SubsetOf("a"))
  }

  function LinkItems(): seq<Item>
  {
    [DescriptionItem("d"), DescriptionItem("e"), SourceItem("book"), RecordItem(Fact()), RuleItem("link", "1", LinkBody()),
     ContextItem("all", ["here"], ["link"])]
  }

  function LinkBase(): StoreState
  {
    EmptyStore().(vocabulary := LinkVocabulary(), descriptions := {"d", "e"}, sources := {"book"}, records := map["fact" := Fact()],
                  rules := map["link" := Rule("1", LinkBody(), true)], contexts := map["all" := Context(["here"], ["link"])])
  }

  lemma LinkRuleAdmitted()
    ensures AdmitRule(LinkVocabulary(), "1", LinkBody()) == Ok(Rule("1", LinkBody(), true))
  {
    SeemsDistinctExactly(["a", "b", "c"]);
    SubsetAdmitted(LinkVocabulary(), LinkHead(), "a");
  }

  function LinkNamed(): StoreState
  {
    EmptyStore().(vocabulary := LinkVocabulary(), descriptions := {"d", "e"}, sources := {"book"})
  }

  lemma LinkDefined()
    ensures AdmitAll(LinkNamed(), LinkItems()[3..]) == Ok(LinkBase())
  {
    var items := LinkItems();
    var s4 := LinkNamed().(records := map["fact" := Fact()]);
    var s5 := s4.(rules := map["link" := Rule("1", LinkBody(), true)]);
    assert RecordFits(LinkNamed(), Fact());
    LinkRuleAdmitted();
    AdmitNext(s5, items[5..], LinkBase(), LinkBase());
    AdmitNext(s4, items[4..], s5, LinkBase());
    AdmitNext(LinkNamed(), items[3..], s4, LinkBase());
  }

  lemma LinkAdmitted(s0: StoreState)
    requires s0 == EmptyStore().(vocabulary := LinkVocabulary())
    ensures AdmitAll(s0, LinkItems()) == Ok(LinkBase())
  {
    var items := LinkItems();
    var none: set<Id> := {};
    var s1 := s0.(descriptions := {"d"});
    var s2 := s1.(descriptions := {"d", "e"});
    assert none + {"d"} == {"d"} && {"d"} + {"e"} == {"d", "e"} && none + {"book"} == {"book"};
    LinkDefined();
    AdmitNext(s2, items[2..], LinkNamed(), LinkBase());
    AdmitNext(s1, items[1..], s2, LinkBase());
    AdmitNext(s0, items, s1, LinkBase());
  }

  // ---------------------------------------------------------------- the snapshot

  lemma SingleLatest(name: string, version: string)
    ensures Latest({(name, version)}) == map[name := version]
  {
    var entries := {(name, version)};
    assert VersionsOf(entries, name) == {version};
    assert LatestOf(entries, map[name := version]);
    LatestUnique(entries, Latest(entries), map[name := version]);
  }

  function LinkSnapshot(): Snapshot
  {
    Snapshot("s", None, ["fact"], map["linked" := "1"], map["p" := "1"], LinkBase().contexts, LinkBase().rules, {"d", "e"})
  }

  function LinkTaken(): StoreState
  {
    LinkBase().(snapshots := map["s" := LinkSnapshot()])
  }

  lemma OneName(name: string)
    ensures SortNames({name}) == [name]
  {
    assert name in SortNames({name});
  }

  lemma LinkSnapshotTaken()
    ensures Taken(LinkBase(), "s", None) == Ok(LinkTaken())
  {
    SingleLatest("linked", "1");
    SingleLatest("p", "1");
    OneName("fact");
    assert LinkBase().records.Keys == {"fact"};
    assert LinkVocabulary().predicates.Keys == {("linked", "1")} && LinkVocabulary().properties.Keys == {("p", "1")};
    assert SnapshotOf(LinkBase(), "s", None) == LinkSnapshot();
  }

  // ---------------------------------------------------------------- the grounding

  lemma LinkEffective()
    ensures Effective(LinkTaken(), "s") == {"fact"}
  {
    var st := LinkTaken();
    assert Base(st, "s") == {"fact"};
    forall x ensures x in Effective(st, "s") <==> x == "fact" {
      EffectiveUnfolds(st, "s", x);
    }
  }

  function LinkBindings(): map<string, Id>
  {
    map["a" := "d", "b" := "d", "c" := "e"]
  }

  function LinkConclusion(): Conclusion
  {
    Conclusion("linked", "1", ["d", "d", "e"], Positive, One("here"), ["book"], "link", "1", ["fact"])
  }

  function LinkResult(): GroundingResult
  {
    GroundingResult("link", "1", [("a", "d"), ("b", "d"), ("c", "e")], True, Some(LinkConclusion()), ["fact"], [], [], "s", "all")
  }

  lemma LinkReads(w: World, s: Reads)
    requires w == WorldAt(LinkTaken(), LinkSnapshot(), Context(["here"], ["link"]), {"fact"})
    ensures Evaluate(w, LinkBindings(), SubsetOf("a").left, s) == Yields(True, Some([]), s.(dependencies := Depend(s.dependencies, "fact")))
  {
    assert Matches(w, "d", "p", "1") == {"fact"};
    OneName("fact");
  }

  lemma LinkEvaluates(w: World)
    requires w == WorldAt(LinkTaken(), LinkSnapshot(), Context(["here"], ["link"]), {"fact"})
    ensures Evaluate(w, LinkBindings(), SubsetOf("a"), Reads([], [], [])) == Yields(True, None, Reads(["fact"], [], []))
  {
    LinkReads(w, Reads([], [], []));
    LinkReads(w, Reads(["fact"], [], []));
  }

  lemma LinkSources()
    ensures SourcesOf(LinkTaken().records, ["fact"]) == {"book"}
  {
    var records := LinkTaken().records;
    forall s ensures s in SourcesOf(records, ["fact"]) <==> s == "book" {
      if s == "book" {
        assert "fact" in ["fact"] && s in records["fact"].sources;
      }
    }
  }

  lemma LinkBinds()
    ensures BindingsFit(LinkBindings(), LinkBody().participants, LinkSnapshot())
    ensures Ordered(LinkBindings(), LinkBody().participants) == LinkResult().bindings
  {
    assert LinkBindings().Keys == {"a", "b", "c"};
  }

  lemma LinkConcludes()
    ensures BindingsFit(LinkBindings(), LinkBody().participants, LinkSnapshot())
    ensures ConclusionOf(LinkTaken(), "link", LinkBindings(), LinkSnapshot(), Context(["here"], ["link"]), ["fact"]) == LinkConclusion()
  {
    LinkBinds();
    LinkSources();
    OneName("book");
  }

  lemma LinkGrounds()
    ensures Ground(LinkTaken(), "link", LinkBindings(), "s", "all", Effective(LinkTaken(), "s")) == Ok(LinkResult())
  {
    LinkEffective();
    LinkBinds();
    LinkConcludes();
    LinkEvaluates(WorldAt(LinkTaken(), LinkSnapshot(), Context(["here"], ["link"]), {"fact"}));
    assert Groundable(LinkTaken(), "link", LinkBindings(), "s", "all");
  }

  // ---------------------------------------------------------------- the derived relation

  lemma LinkBound()
    ensures BoundTo(LinkResult().bindings, LinkHead().participants) == Somes(LinkConclusion().participants)
    ensures Names(LinkResult().bindings) == ["a", "b", "c"]
  {
    var bindings := LinkResult().bindings;
    assert bindings[1..] == [("b", "d"), ("c", "e")] && bindings[1..][1..] == [("c", "e")] && bindings[1..][1..][1..] == [];
    assert BindingOf(bindings[1..][1..], "c") == Some("e") && BindingOf(bindings[1..][1..], "b") == None && BindingOf(bindings[1..][1..], "a") == None;
    assert BindingOf(bindings[1..], "b") == Some("d") && BindingOf(bindings[1..], "c") == Some("e") && BindingOf(bindings[1..], "a") == None;
  }

  lemma LinkFits()
    ensures DerivationFits(LinkTaken(), "pair", LinkResult())
  {
    LinkBound();
    LinkSources();
    assert (set s | s in LinkConclusion().sources) == {"book"};
  }

  lemma LinkDerived() returns (end: StoreState)
    requires Sound(LinkTaken())
    ensures Derived(LinkTaken(), "pair", LinkResult()) == Ok(end)
    ensures end.records == LinkTaken().records["pair" := DerivedRelation("pair", LinkConclusion())]
  {
    LinkFits();
    CycleTestNeverFires(LinkTaken(), "pair", ["fact"]);
    end := Derived(LinkTaken(), "pair", LinkResult()).value;
  }

  lemma RunThree(st: StoreState, first: Step, second: Step, third: Step, one: StoreState, two: StoreState, three: StoreState)
    requires Apply(st, first) == Ok(one) && Apply(one, second) == Ok(two) && Apply(two, third) == Ok(three)
    ensures Run(st, [first, second, third]) == three
  {
    RunTwo(one, second, third, two, three);
    assert [first, second, third][1..] == [second, third];
    assert After(st, first) == one;
  }

  lemma LinkBegun() returns (s0: StoreState)
    ensures Apply(EmptyStore(), ConfigureVocabulary(LinkVocabulary())) == Ok(s0) && Apply(s0, Admit(LinkItems())) == Ok(LinkBase())
  {
    s0 := EmptyStore().(vocabulary := LinkVocabulary());
    assert Configured(EmptyStore(), s0.vocabulary).value.vocabulary == s0.vocabulary;
    LinkAdmitted(s0);
  }

  lemma LinkReached() returns (steps: seq<Step>)
    ensures Run(EmptyStore(), steps) == LinkTaken()
  {
    var begun := LinkBegun();
    LinkSnapshotTaken();
    TakeApplies(LinkBase(), "s", LinkTaken());
    steps := [ConfigureVocabulary(LinkVocabulary()), Admit(LinkItems()), TakeSnapshot("s", None)];
    RunThree(EmptyStore(), steps[0], steps[1], steps[2], begun, LinkBase(), LinkTaken());
  }

  lemma DeriveApplies(st: StoreState, id: Id, r: GroundingResult, end: StoreState)
    requires Derived(st, id, r) == Ok(end)
    ensures Apply(st, AdmitDerived(id, r)) == Ok(end)
  {
  }

  lemma LinkEnds(end: StoreState)
    requires Derived(LinkTaken(), "pair", LinkResult()) == Ok(end)
    ensures NoBorrowedProofs(end) && "pair" in end.records && !RecordPasses(end.records["pair"])
  {
    SeemsDistinctExactly(["d", "d", "e"]);
    assert ["d", "d", "e"][0] == ["d", "d", "e"][1];
    assert end.records == LinkTaken().records["pair" := DerivedRelation("pair", LinkConclusion())];
  }

  lemma LinkRuns(steps: seq<Step>) returns (end: StoreState)
    requires Run(EmptyStore(), steps) == LinkTaken()
    ensures Run(EmptyStore(), steps + [AdmitDerived("pair", LinkResult())]) == end
    ensures Derived(LinkTaken(), "pair", LinkResult()) == Ok(end)
  {
    ReachableSound(steps);
    end := LinkDerived();
    DeriveApplies(LinkTaken(), "pair", LinkResult(), end);
    RunMore(EmptyStore(), steps, AdmitDerived("pair", LinkResult()));
  }

  /**
   * A run of ordinary admissions and a snapshot, at which an ordinary rule grounds; its grounding is admitted
   * as the relation d, d, e, which the row test of restore refuses.
   */
  lemma RepeatedConclusionIsReachable() returns (steps: seq<Step>)
    ensures Run(EmptyStore(), steps) == LinkTaken()
    ensures Ground(LinkTaken(), "link", LinkBindings(), "s", "all", Effective(LinkTaken(), "s")) == Ok(LinkResult())
    ensures var st := Run(EmptyStore(), steps + [AdmitDerived("pair", LinkResult())]);
            NoBorrowedProofs(st) && "pair" in st.records && !RecordPasses(st.records["pair"])
  {
    LinkGrounds();
    steps := LinkReached();
    var end := LinkRuns(steps);
    LinkEnds(end);
  }
}

/** A run with one candidate that a seen relation admits and one that only an unseen relation speaks for: the first is
    chosen, the second excluded, and retiring the relation makes the decision STALE. */
module RetiredRelation {
  import opened DisorderedRuns
  import opened Graph
  import opened Grounding
  import opened GroundingTheorems
  import opened Lineage
  import opened LineageTheorems
  import opened Model
  import opened Ordering
  import opened Problems
  import opened ReopeningWitnesses
  import opened RestoreClosure
  import opened Rules
  import opened RuleTheorems
  import opened RunChecks
  import opened Scopes
  import opened ScopeTheorems
  import opened Selections
  import opened Statuses
  import StatusFrames
  import opened StepContents
  import opened StoreFrames
  import opened StoreInvariants
  import opened StoreSteps
  import opened StoreTheorems
  import opened Supersessions

  // ---------------------------------------------------------------- the knowledge

  function Realizing(id: Id, candidate: Id, place: string): Record
  {
    Relation(id, "realizes", "1", [candidate, "want"], Positive, One(place), Exact, ["book"], None)
  }

  function Costing(id: Id, candidate: Id, cost: int): Record
  {
    Property(id, candidate, "cost", "1", Integer(cost), "here", Exact, ["book"])
  }

  function Having(id: Id, candidate: Id): Record
  {
    Property(id, candidate, "p", "1", FiniteSet([]), "here", Exact, ["book"])
  }

  /** Candidate a costs 3 and is realized where the context looks; b costs 1 and is realized elsewhere. */
  function Facts(): map<Id, Record>
  {
    map["x" := Realizing("x", "a", "here"), "y" := Realizing("y", "b", "there"),
        "k" := Costing("k", "a", 3), "l" := Costing("l", "b", 1), "f" := Having("f", "a"), "g" := Having("g", "b")]
  }

  /** What is known of the state once its one snapshot is taken. */
  ghost predicate Knows(st: StoreState)
  {
    && st.vocabulary == PickVocabulary() && st.descriptions == {"a", "b", "want", "ask"} && st.sources == {"book"}
    && st.records == Facts() && st.derivations == map[] && st.supersessions == map[] && st.isolated == {}
    && st.rules == map["pick" := Pick()] && st.contexts == map["all" := PickContext()]
    && st.snapshots.Keys == {"s"} && Fixes(st.snapshots["s"])
  }

  ghost predicate Fixes(snap: Snapshot)
  {
    && snap.id == "s" && snap.parent == None && (forall x :: x in snap.records <==> x in Facts())
    && snap.predicates == map["fits" := "1", "realizes" := "1"] && snap.properties == map["cost" := "1", "p" := "1"]
    && snap.contexts == map["all" := PickContext()] && snap.rules == map["pick" := Pick()]
    && snap.descriptions == {"a", "b", "want", "ask"}
  }

  lemma AllEffective(st: StoreState)
    requires Knows(st)
    ensures Effective(st, "s") == Facts().Keys
  {
    assert Base(st, "s") == Facts().Keys;
    forall x ensures x in Effective(st, "s") <==> x in Facts().Keys {
      EffectiveUnfolds(st, "s", x);
    }
  }

  // ---------------------------------------------------------------- the groundings

  function Binding(candidate: Id): map<string, Id>
  {
    map["candidate" := candidate, "request" := "ask"]
  }

  function HavingOf(candidate: Id): Id
  {
    if candidate == "a" then "f" else "g"
  }

  lemma LeafIsKnown(site: Site, candidate: Id)
    requires candidate in {"a", "b"} && site.st.records == Facts() && site.st.isolated == {} && site.effective == Facts().Keys
    requires site.context == PickContext()
    ensures forall x :: About(site, Binding(candidate), SubsetOf("candidate").left, x) <==> x == HavingOf(candidate)
  {
  }

  lemma LeavesOfPick()
    ensures forall leaf :: leaf in Leaves(SubsetOf("candidate")) <==> leaf == SubsetOf("candidate").left
  {
    var e := SubsetOf("candidate");
    assert Leaves(e.left) == [e.left] && Leaves(e.right) == [e.left];
    assert Leaves(e) == [e.left, e.left];
  }

  lemma PickIsEvaluable(site: Site, candidate: Id)
    requires candidate in {"a", "b"} && site.st.records == Facts() && site.st.isolated == {} && site.effective == Facts().Keys
    requires site.context == PickContext() && site.st.vocabulary == PickVocabulary() && Fixes(site.snapshot)
    ensures Evaluable(site, Binding(candidate), SubsetOf("candidate")) && Holds(site, Binding(candidate), SubsetOf("candidate"))
  {
    var e := SubsetOf("candidate");
    LeafIsKnown(site, candidate);
    assert About(site, Binding(candidate), e.left, HavingOf(candidate));
    LeavesOfPick();
    assert LeafReadable(site, Binding(candidate), e.left);
  }

  lemma PickIsPrepared(st: StoreState, candidate: Id)
    requires Knows(st) && candidate in {"a", "b"}
    ensures Prepared(st, "pick", Binding(candidate), "s", "all")
  {
    assert PickBody().participants[0] == "candidate" && PickBody().participants[1] == "request";
  }

  lemma PickIsGroundable(st: StoreState, candidate: Id)
    requires Knows(st) && candidate in {"a", "b"}
    ensures ScopeTheorems.Groundable(st, PickScope(), candidate, Facts().Keys)
  {
    PickIsPrepared(st, candidate);
    PickIsEvaluable(SiteOf(st, "s", "all", Facts().Keys), candidate);
  }

  // ---------------------------------------------------------------- the observations

  function RealizingOf(candidate: Id): Id
  {
    if candidate == "a" then "x" else "y"
  }

  lemma RealizesExactly(st: StoreState, candidate: Id)
    requires Knows(st) && candidate in {"a", "b"}
    ensures forall x :: Realizes(st, PickScope(), candidate, Facts().Keys, x) <==> x == RealizingOf(candidate)
    ensures Seen(st, PickScope(), "x") && !Seen(st, PickScope(), "y")
  {
    assert Bears(st.records["x"].scope, "here") && !Bears(st.records["y"].scope, "here");
  }

  lemma OnlyListed(names: seq<Id>, x: Id)
    requires Ascending(names) && forall y :: y in names <==> y == x
    ensures names == [x]
  {
    assert Ascending([x]);
    AscendingUnique(names, [x]);
  }

  lemma SomethingListed(names: seq<Id>)
    requires names != []
    ensures exists y :: y in names
  {
    assert names[0] in names;
  }

  lemma NothingListed(names: seq<Id>)
    requires forall y :: y !in names
    ensures names == []
  {
    if names != [] {
      SomethingListed(names);
      assert false;
    }
  }

  lemma EvidenceAs(st: StoreState, candidate: Id, e: DiscoveryEvidence)
    requires Knows(st) && candidate in {"a", "b"} && EvidenceTold(st, PickScope(), candidate, Facts().Keys, e)
    ensures candidate == "a" ==> e.found == ["x"] && e.included == ["x"] && e.excluded == []
    ensures candidate == "b" ==> e.found == ["y"] && e.included == [] && e.excluded == ["y"]
  {
    RealizesExactly(st, candidate);
    OnlyListed(e.found, RealizingOf(candidate));
    if candidate == "a" {
      OnlyListed(e.included, "x");
      NothingListed(e.excluded);
    } else {
      OnlyListed(e.excluded, "y");
      NothingListed(e.included);
    }
  }

  /** Found TRUE, with this exclusion and this evidence. */
  predicate ObservedTrue(o: Observation, candidate: Id, exclusion: Option<string>, included: seq<Id>, excluded: seq<Id>)
  {
    && o.candidate == candidate && o.traversed && o.failure == None
    && o.result.Some? && o.truth == Some(True) && o.result.value.truth == True
    && o.exclusion == exclusion && o.evidence.Some? && o.evidence.value.included == included && o.evidence.value.excluded == excluded
  }

  lemma ResultIsTrue(st: StoreState, candidate: Id, r: GroundingResult)
    requires Knows(st) && candidate in {"a", "b"} && ResultTold(st, PickScope(), candidate, Facts().Keys, r)
    ensures r.truth == True
  {
    PickIsEvaluable(SiteOf(st, "s", "all", Facts().Keys), candidate);
  }

  lemma AdmitsExactly(st: StoreState, candidate: Id)
    requires Knows(st) && candidate in {"a", "b"}
    ensures (exists x :: Admits(st, PickScope(), candidate, Facts().Keys, x)) <==> candidate == "a"
  {
    RealizesExactly(st, candidate);
    if candidate == "a" {
      assert Admits(st, PickScope(), candidate, Facts().Keys, "x");
    }
  }

  /** The candidate is grounded, and in scope exactly when the relation that speaks for it is seen. */
  lemma ObservedAs(st: StoreState, candidate: Id, o: Observation)
    requires Knows(st) && candidate in {"a", "b"} && ObservationTold(st, PickScope(), candidate, Facts().Keys, o)
    ensures candidate == "a" ==> ObservedTrue(o, "a", None, ["x"], [])
    ensures candidate == "b" ==> ObservedTrue(o, "b", Some("excluded_by_context"), [], ["y"])
  {
    PickIsGroundable(st, candidate);
    ResultIsTrue(st, candidate, o.result.value);
    EvidenceAs(st, candidate, o.evidence.value);
    AdmitsExactly(st, candidate);
  }

  // ---------------------------------------------------------------- the run

  /** The state with the scope, and with the run it evaluates to. */
  ghost predicate Evaluates(st: StoreState, next: StoreState)
  {
    && Knows(st) && st.scopes == map["scope" := PickScope()] && st.groundings == map[] && st.problems == map[] && st.decisions == map[]
    && RunScope(st, "scope") == Ok(next)
  }

  lemma PickIsAgreed(st: StoreState)
    requires Knows(st)
    ensures Agreed(st, PickScope()) && ListedOnce(PickScope().candidates) && ListedOnce(PickScope().rules) && ManifestOk(PickScope())
  {
  }

  lemma ScopeCreated(st: StoreState)
    requires Knows(st) && st.scopes == map[]
    ensures Created(st, PickScope()) == Ok(st.(scopes := map["scope" := PickScope()]))
  {
    PickIsAgreed(st);
    CreatedExactly(st, PickScope());
  }

  /** The two observations, as told above. */
  ghost predicate RunsAsTold(g: DecisionGrounding)
  {
    && g.scope == "scope" && g.status == CompleteForDeclaredScope && g.current && !g.interrupted && !g.pruned && |g.observations| == 2
    && ObservedTrue(g.observations[0], "a", None, ["x"], [])
    && ObservedTrue(g.observations[1], "b", Some("excluded_by_context"), [], ["y"])
  }

  lemma RunLists(st: StoreState, g: DecisionGrounding)
    requires Knows(st) && RunTold(st, PickScope(), Facts().Keys, g)
    ensures |g.observations| == 2
    ensures ObservationTold(st, PickScope(), "a", Facts().Keys, g.observations[0])
    ensures ObservationTold(st, PickScope(), "b", Facts().Keys, g.observations[1])
  {
    assert PickScope().candidates[0] == "a" && PickScope().candidates[1] == "b";
  }

  lemma RunIsTold(st: StoreState, g: DecisionGrounding)
    requires Knows(st) && RunTold(st, PickScope(), Facts().Keys, g)
    ensures RunsAsTold(g)
  {
    RunLists(st, g);
    ObservedAs(st, "a", g.observations[0]);
    ObservedAs(st, "b", g.observations[1]);
  }

  lemma RunHappens(st: StoreState)
    requires Knows(st) && st.scopes == map["scope" := PickScope()] && st.groundings == map[]
    ensures RunScope(st, "scope").Ok?
    ensures var next := RunScope(st, "scope").value;
            && next == st.(groundings := next.groundings) && next.groundings.Keys == {"scope"}
            && RunTold(st, PickScope(), Facts().Keys, next.groundings["scope"])
  {
    PickIsAgreed(st);
    RunScopeExactly(st, "scope");
    AllEffective(st);
  }

  lemma RunMade(st: StoreState) returns (next: StoreState)
    requires Knows(st) && st.scopes == map["scope" := PickScope()] && st.groundings == map[] && st.problems == map[] && st.decisions == map[]
    ensures Evaluates(st, next) && next.groundings.Keys == {"scope"} && RunsAsTold(next.groundings["scope"])
    ensures next == st.(groundings := next.groundings)
    ensures Completeness(st, PickScope(), next.groundings["scope"], Facts().Keys) == Some(CompleteForDeclaredScope)
  {
    RunHappens(st);
    AllEffective(st);
    next := RunScope(st, "scope").value;
    RunIsTold(st, next.groundings["scope"]);
    EvaluatedIsComplete(st, next);
  }

  lemma EvaluatedIsComplete(st: StoreState, next: StoreState)
    requires Evaluates(st, next) && Effective(st, "s") == Facts().Keys
    ensures "scope" in next.groundings
    ensures Completeness(st, PickScope(), next.groundings["scope"], Facts().Keys) == Some(next.groundings["scope"].status)
  {
    assert ScopeView(st, "scope") == Facts().Keys;
  }

  // ---------------------------------------------------------------- the problem and the decision

  function Price(): ObjectiveValue
  {
    ObjectiveValue(3, "k", "cost", "1", Exact)
  }

  /** The problem over the run: a at its cost, b without any. */
  function StoryProblem(g: DecisionGrounding): Problem
    requires RunsAsTold(g)
  {
    Problem("scope", "s", "all", "ask", "pick", "1",
            [Candidate("a", True, g.observations[0].result.value, None, Some(Price())),
             Candidate("b", True, g.observations[1].result.value, Some("excluded_by_context"), None)])
  }

  function StoryView(): Support
  {
    Support("1", Facts().Keys, ["here"], true)
  }

  lemma PriceIsKnown(st: StoreState)
    requires Knows(st)
    ensures PricedAt(st, StoryView(), "a", Price())
  {
  }

  lemma CandidatesTold(st: StoreState, g: DecisionGrounding)
    requires Knows(st) && RunsAsTold(g)
    ensures forall i :: 0 <= i < 2 ==> CandidateTold(st, StoryView(), g.observations[i], StoryProblem(g).candidates[i])
  {
    PriceIsKnown(st);
  }

  /** Later, when the scope and the run are stored. */
  ghost predicate Ran(st: StoreState, g: DecisionGrounding)
  {
    && Knows(st) && RunsAsTold(g) && st.scopes == map["scope" := PickScope()] && st.groundings == map["scope" := g]
    && Completeness(st, PickScope(), g, Facts().Keys) == Some(CompleteForDeclaredScope)
  }

  lemma StoryIsBuildable(st: StoreState, g: DecisionGrounding)
    requires Ran(st, g)
    ensures Buildable(st, "scope", Facts().Keys)
  {
    CompletenessExactly(st, PickScope(), g, Facts().Keys);
  }

  lemma StoryLooksUp(st: StoreState)
    requires Knows(st)
    ensures LooksUp(st, PickScope(), true, Facts().Keys, StoryView())
  {
  }

  lemma StoryFromRun(st: StoreState, g: DecisionGrounding)
    requires Knows(st) && RunsAsTold(g)
    ensures forall i :: 0 <= i < 2 ==> FromRun(st, StoryView(), g, StoryProblem(g).candidates[i])
  {
    CandidatesTold(st, g);
    assert forall i :: 0 <= i < 2 ==> g.observations[i] in g.observations;
  }

  lemma StoryIsTold(st: StoreState, g: DecisionGrounding)
    requires Knows(st) && RunsAsTold(g)
    ensures ProblemTold(st, PickScope(), g, Facts().Keys, StoryProblem(g))
  {
    StoryLooksUp(st);
    StoryFromRun(st, g);
  }

  lemma StoryIsBuilt(st: StoreState, g: DecisionGrounding)
    requires Ran(st, g)
    ensures BuildProblem(st, "scope", ScopeView(st, "scope")) == Some(StoryProblem(g))
  {
    AllEffective(st);
    StoryIsBuildable(st, g);
    StoryIsTold(st, g);
    BuildExactly(st, "scope", Facts().Keys, StoryProblem(g));
  }

  function StoryChoice(): Selection
  {
    Selection("problem", Resolved, Some(3), ["a"])
  }

  /** The candidate that counts is chosen, although the excluded one would cost less. */
  lemma ChoiceIsTold(g: DecisionGrounding)
    requires RunsAsTold(g)
    ensures var p := StoryProblem(g);
            Distinct(p.candidates) && Selectable(p, true) && OutcomeTold(p, true, Resolved, Some(3), ["a"])
  {
    var p := StoryProblem(g);
    assert p.candidates[0] in p.candidates && CostsExactly(p.candidates[0], true, 3);
    assert Counts(p.candidates[0], true) && p.candidates[0].truth != False;
    assert forall c :: c in p.candidates && Counts(c, true) ==> c == p.candidates[0];
  }

  lemma ChoiceIsAccepted(g: DecisionGrounding, id: Id)
    requires RunsAsTold(g)
    ensures SelectionShape(StoryChoice()) && DecisionOk(StoryProblem(g).candidates, true, DecisionOf(id, StoryChoice()))
  {
    ChoiceIsTold(g);
    DecisionExactly(StoryProblem(g), true, DecisionOf(id, StoryChoice()));
  }

  // ---------------------------------------------------------------- the steps up to the decision

  function FactList(): seq<Record>
  {
    [Realizing("x", "a", "here"), Realizing("y", "b", "there"), Costing("k", "a", 3), Costing("l", "b", 1), Having("f", "a"), Having("g", "b")]
  }

  function AsItems(records: seq<Record>): (items: seq<Item>)
    ensures |items| == |records| && forall i :: 0 <= i < |records| ==> items[i] == RecordItem(records[i])
  {
    seq(|records|, i requires 0 <= i < |records| => RecordItem(records[i]))
  }

  function NamingItems(): seq<Item>
  {
    [DescriptionItem("a"), DescriptionItem("b"), DescriptionItem("want"), DescriptionItem("ask"), SourceItem("book")]
  }

  function DefiningItems(): seq<Item>
  {
    [RuleItem("pick", "1", PickBody()), ContextItem("all", ["here"], ["pick"])]
  }

  function Named(): StoreState
  {
    EmptyStore().(vocabulary := PickVocabulary(), descriptions := {"a", "b", "want", "ask"}, sources := {"book"})
  }

  function Defined(): StoreState
  {
    Named().(rules := map["pick" := Pick()], contexts := map["all" := PickContext()])
  }

  function Known(): StoreState
  {
    Defined().(records := Facts())
  }

  function FiledUnder(records: map<Id, Record>, more: seq<Record>): map<Id, Record>
    decreases |more|
  {
    if more == [] then records else FiledUnder(records[more[0].id := more[0]], more[1..])
  }

  lemma {:induction false} FiledExactly(records: map<Id, Record>, more: seq<Record>)
    requires forall i, j :: 0 <= i < j < |more| ==> more[i].id != more[j].id
    ensures var all := FiledUnder(records, more);
            && (forall i :: 0 <= i < |more| ==> more[i].id in all && all[more[i].id] == more[i])
            && (forall x :: x in records && (forall i :: 0 <= i < |more| ==> more[i].id != x) ==> x in all && all[x] == records[x])
            && forall x :: x in all ==> x in records || exists i :: 0 <= i < |more| && more[i].id == x
    decreases |more|
  {
    if more != [] {
      FiledExactly(records[more[0].id := more[0]], more[1..]);
      assert forall i :: 0 < i < |more| ==> more[i] == more[1..][i - 1];
    }
  }

  /** Records that fit, under different new identities, are admitted one after the other. */
  lemma {:induction false} RecordsAdmitted(st: StoreState, more: seq<Record>)
    requires st.isolated == {} && (forall r :: r in more ==> RecordFits(st, r) && r.id !in st.records)
    requires forall i, j :: 0 <= i < j < |more| ==> more[i].id != more[j].id
    ensures AdmitAll(st, AsItems(more)) == Ok(st.(records := FiledUnder(st.records, more)))
    decreases |more|
  {
    if more != [] {
      var next := st.(records := st.records[more[0].id := more[0]]);
      forall r | r in more[1..] ensures RecordFits(next, r) && r.id !in next.records {
        assert r in more;
      }
      RecordsAdmitted(next, more[1..]);
      assert AsItems(more)[1..] == AsItems(more[1..]);
      assert more[0] in more && AsItems(more)[0] == RecordItem(more[0]);
    }
  }

  /** The map holds exactly the listed records, each under its identity. */
  ghost predicate Files(list: seq<Record>, filed: map<Id, Record>)
  {
    && (forall i :: 0 <= i < |list| ==> list[i].id in filed && filed[list[i].id] == list[i])
    && forall x :: x in filed ==> exists i :: 0 <= i < |list| && list[i].id == x
  }

  lemma FiledAlike(list: seq<Record>, a: map<Id, Record>, b: map<Id, Record>)
    requires Files(list, a) && Files(list, b)
    ensures a == b
  {
  }

  lemma FactsListed()
    ensures Files(FactList(), Facts())
  {
    var list := FactList();
    forall x | x in Facts() ensures exists i :: 0 <= i < |list| && list[i].id == x {
      assert x == list[0].id || x == list[1].id || x == list[2].id || x == list[3].id || x == list[4].id || x == list[5].id;
    }
  }

  lemma FactsAreFiled()
    ensures forall i, j :: 0 <= i < j < |FactList()| ==> FactList()[i].id != FactList()[j].id
    ensures FiledUnder(map[], FactList()) == Facts()
  {
    FiledExactly(map[], FactList());
    FactsListed();
    FiledAlike(FactList(), FiledUnder(map[], FactList()), Facts());
  }

  lemma FactsFit(st: StoreState)
    requires st == Defined()
    ensures forall r :: r in FactList() ==> RecordFits(st, r)
  {
    SeemsDistinctExactly(["a", "want"]);
    SeemsDistinctExactly(["b", "want"]);
  }

  lemma FactsAdmitted()
    ensures AdmitAll(Defined(), AsItems(FactList())) == Ok(Known())
  {
    FactsFit(Defined());
    FactsAreFiled();
    RecordsAdmitted(Defined(), FactList());
  }

  lemma {:induction false} AdmitBoth(st: StoreState, items: seq<Item>, more: seq<Item>, next: StoreState)
    requires AdmitAll(st, items) == Ok(next)
    ensures AdmitAll(st, items + more) == AdmitAll(next, more)
    decreases |items|
  {
    if items == [] {
      assert items + more == more;
    } else {
      AdmitBoth(AdmitItem(st, items[0]).value, items[1..], more, next);
      assert (items + more)[1..] == items[1..] + more && (items + more)[0] == items[0];
    }
  }

  lemma NamesAdmitted(s0: StoreState)
    requires s0 == EmptyStore().(vocabulary := PickVocabulary())
    ensures AdmitAll(s0, NamingItems()) == Ok(Named())
  {
    var items := NamingItems();
    var s1 := s0.(descriptions := {"a"});
    var s2 := s1.(descriptions := {"a", "b"});
    var s3 := s2.(descriptions := {"a", "b", "want"});
    var s4 := s3.(descriptions := {"a", "b", "want", "ask"});
    var none: set<Id> := {};
    assert none + {"a"} == {"a"} && {"a"} + {"b"} == {"a", "b"} && {"a", "b"} + {"want"} == {"a", "b", "want"};
    assert {"a", "b", "want"} + {"ask"} == {"a", "b", "want", "ask"} && none + {"book"} == {"book"};
    AdmitNext(s4, items[4..], Named(), Named());
    AdmitNext(s3, items[3..], s4, Named());
    AdmitNext(s2, items[2..], s3, Named());
    AdmitNext(s1, items[1..], s2, Named());
    AdmitNext(s0, items, s1, Named());
  }

  lemma DefinitionsAdmitted()
    ensures AdmitAll(Named(), DefiningItems()) == Ok(Defined())
  {
    var items := DefiningItems();
    var s1 := Named().(rules := map["pick" := Pick()]);
    PickAdmitted();
    AdmitNext(s1, items[1..], Defined(), Defined());
    AdmitNext(Named(), items, s1, Defined());
  }

  function StoryItems(): seq<Item>
  {
    NamingItems() + (DefiningItems() + AsItems(FactList()))
  }

  lemma StoryAdmitted(s0: StoreState)
    requires s0 == EmptyStore().(vocabulary := PickVocabulary())
    ensures AdmitAll(s0, StoryItems()) == Ok(Known())
  {
    NamesAdmitted(s0);
    DefinitionsAdmitted();
    FactsAdmitted();
    AdmitBoth(Named(), DefiningItems(), AsItems(FactList()), Defined());
    AdmitBoth(s0, NamingItems(), DefiningItems() + AsItems(FactList()), Named());
  }

  lemma RunBegins(vocabulary: Vocabulary, items: seq<Item>, s0: StoreState, end: StoreState)
    requires Configured(EmptyStore(), vocabulary) == Ok(s0) && AdmitAll(s0, items) == Ok(end)
    ensures Run(EmptyStore(), [ConfigureVocabulary(vocabulary), Admit(items)]) == end
  {
    RunTwo(EmptyStore(), ConfigureVocabulary(vocabulary), Admit(items), s0, end);
  }

  lemma StoryBegun() returns (steps: seq<Step>)
    ensures Run(EmptyStore(), steps) == Known()
  {
    var s0 := EmptyStore().(vocabulary := PickVocabulary());
    assert Configured(EmptyStore(), PickVocabulary()).value.vocabulary == PickVocabulary();
    StoryAdmitted(s0);
    RunBegins(PickVocabulary(), StoryItems(), s0, Known());
    steps := [ConfigureVocabulary(PickVocabulary()), Admit(StoryItems())];
  }

  /** The steps lead from an empty store to this state. */
  ghost predicate Reached(steps: seq<Step>, st: StoreState)
  {
    Run(EmptyStore(), steps) == st
  }

  lemma NextStep(steps: seq<Step>, st: StoreState, step: Step, next: StoreState)
    requires Reached(steps, st) && Apply(st, step) == Ok(next)
    ensures Reached(steps + [step], next)
  {
    RunMore(EmptyStore(), steps, step);
  }

  lemma LatestTwo(entries: map<(string, string), nat>, latest: map<string, string>)
    requires entries == PickVocabulary().predicates && GreatestVersions(entries, latest)
    ensures latest == map["fits" := "1", "realizes" := "1"]
  {
    assert ("fits", "1") in entries && ("realizes", "1") in entries;
    assert forall name :: name in latest ==> (name, latest[name]) in entries;
    assert latest.Keys == {"fits", "realizes"};
  }

  lemma LatestTwoProperties(entries: map<(string, string), ValueKind>, latest: map<string, string>)
    requires entries == PickVocabulary().properties && GreatestVersions(entries, latest)
    ensures latest == map["cost" := "1", "p" := "1"]
  {
    assert ("cost", "1") in entries && ("p", "1") in entries;
    assert forall name :: name in latest ==> (name, latest[name]) in entries;
    assert latest.Keys == {"cost", "p"};
  }

  lemma SnapshotFixes(snap: Snapshot)
    requires SnapshotTold(Known(), "s", None, snap)
    ensures Fixes(snap)
  {
    LatestTwo(Known().vocabulary.predicates, snap.predicates);
    LatestTwoProperties(Known().vocabulary.properties, snap.properties);
  }

  /** No decision has been prepared yet. */
  predicate Bare(st: StoreState)
  {
    st.scopes == map[] && st.groundings == map[] && st.problems == map[] && st.decisions == map[]
  }

  lemma KnowsTaken(st: StoreState, snap: Snapshot)
    requires st == Known().(snapshots := map["s" := snap]) && Fixes(snap)
    ensures Knows(st) && Bare(st)
  {
  }

  lemma StoryTakes(known: StoreState) returns (st: StoreState)
    requires known == Known()
    ensures Taken(known, "s", None) == Ok(st) && Knows(st) && Bare(st)
  {
    TakenExactly(known, "s", None);
    st := Taken(known, "s", None).value;
    SnapshotFixes(st.snapshots["s"]);
    assert st.snapshots == map["s" := st.snapshots["s"]];
    KnowsTaken(st, st.snapshots["s"]);
  }

  lemma ScopeApplies(st: StoreState, scope: DecisionScope, next: StoreState)
    requires Created(st, scope) == Ok(next)
    ensures Apply(st, CreateScope(scope)) == Ok(next)
  {
  }

  lemma RunApplies(st: StoreState, id: Id, next: StoreState)
    requires RunScope(st, id) == Ok(next)
    ensures Apply(st, EvaluateDecisionScope(id)) == Ok(next)
  {
  }

  lemma ProblemApplies(st: StoreState, id: Id, p: Problem, next: StoreState)
    requires AddProblem(st, id, p) == Ok(next)
    ensures Apply(st, AdmitProblem(id, p)) == Ok(next)
  {
  }

  lemma DecisionApplies(st: StoreState, id: Id, s: Selection, next: StoreState)
    requires AddDecision(st, id, s) == Ok(next)
    ensures Apply(st, AdmitDecision(id, s)) == Ok(next)
  {
  }

  lemma StoryTaken() returns (steps: seq<Step>, st: StoreState)
    ensures Reached(steps, st) && Knows(st) && Bare(st)
  {
    var before := StoryBegun();
    st := StoryTakes(Known());
    TakeApplies(Known(), "s", st);
    NextStep(before, Known(), TakeSnapshot("s", None), st);
    steps := before + [TakeSnapshot("s", None)];
  }

  predicate Scoped(st: StoreState)
  {
    st.scopes == map["scope" := PickScope()] && st.groundings == map[] && st.problems == map[] && st.decisions == map[]
  }

  lemma StoryScopes(st: StoreState) returns (next: StoreState)
    requires Knows(st) && Bare(st)
    ensures Created(st, PickScope()) == Ok(next) && Knows(next) && Scoped(next)
  {
    ScopeCreated(st);
    next := st.(scopes := map["scope" := PickScope()]);
  }

  lemma RunExtendsScoped(st: StoreState, next: StoreState)
    requires Knows(st) && Scoped(st) && next == st.(groundings := next.groundings)
    ensures Extends(st, next) && Knows(next)
  {
  }

  lemma RanMade(st: StoreState, next: StoreState, g: DecisionGrounding)
    requires Knows(st) && Scoped(st) && next == st.(groundings := map["scope" := g]) && RunsAsTold(g)
    requires Completeness(st, PickScope(), g, Facts().Keys) == Some(CompleteForDeclaredScope)
    ensures Ran(next, g)
  {
    RunExtendsScoped(st, next);
    RanAfter(st, next, g);
  }

  lemma StoryEvaluates(st: StoreState) returns (next: StoreState, g: DecisionGrounding)
    requires Knows(st) && Scoped(st)
    ensures RunScope(st, "scope") == Ok(next) && Ran(next, g) && next.problems == map[] && next.decisions == map[]
  {
    next := RunMade(st);
    g := next.groundings["scope"];
    assert next.groundings == map["scope" := g];
    RanMade(st, next, g);
  }

  lemma StoryRun() returns (steps: seq<Step>, st: StoreState, g: DecisionGrounding)
    ensures Reached(steps, st) && Ran(st, g) && st.problems == map[] && st.decisions == map[]
  {
    var before, taken := StoryTaken();
    var scoped := StoryScopes(taken);
    ScopeApplies(taken, PickScope(), scoped);
    NextStep(before, taken, CreateScope(PickScope()), scoped);
    st, g := StoryEvaluates(scoped);
    RunApplies(scoped, "scope", st);
    NextStep(before + [CreateScope(PickScope())], scoped, EvaluateDecisionScope("scope"), st);
    steps := before + [CreateScope(PickScope())] + [EvaluateDecisionScope("scope")];
  }

  /** What the run was found to be it stays in a state that only adds decisions. */
  lemma RanAfter(st: StoreState, later: StoreState, g: DecisionGrounding)
    requires Knows(st) && RunsAsTold(g) && Completeness(st, PickScope(), g, Facts().Keys) == Some(CompleteForDeclaredScope)
    requires Extends(st, later) && Knows(later) && later.scopes == map["scope" := PickScope()] && later.groundings == map["scope" := g]
    ensures Ran(later, g)
  {
    PickIsAgreed(st);
    StatusFrames.CompletenessFrame(st, later, PickScope(), g, Facts().Keys);
  }

  // ---------------------------------------------------------------- the decision

  function StoryDecision(): Decision
  {
    Decision("choice", "problem", Resolved, Some(3), ["a"])
  }

  lemma StoryAddsProblem(st: StoreState, g: DecisionGrounding) returns (next: StoreState)
    requires Ran(st, g) && st.problems == map[] && st.decisions == map[]
    ensures AddProblem(st, "problem", StoryProblem(g)) == Ok(next)
    ensures next == st.(problems := map["problem" := StoryProblem(g)])
  {
    StoryIsBuilt(st, g);
    next := st.(problems := map["problem" := StoryProblem(g)]);
  }

  lemma StoryAddsDecision(st: StoreState, g: DecisionGrounding, before: StoreState) returns (next: StoreState)
    requires Ran(before, g) && before.decisions == map[] && st == before.(problems := map["problem" := StoryProblem(g)])
    ensures AddDecision(st, "choice", StoryChoice()) == Ok(next)
    ensures next == st.(decisions := map["choice" := StoryDecision()])
  {
    ChoiceIsAccepted(g, "choice");
    next := st.(decisions := map["choice" := StoryDecision()]);
  }

  /** With the problem and the decision over the run. */
  ghost predicate Decided(st: StoreState, g: DecisionGrounding)
  {
    && Ran(st, g) && st.problems == map["problem" := StoryProblem(g)] && st.decisions == map["choice" := StoryDecision()]
  }

  lemma DecidedAfter(before: StoreState, st: StoreState, g: DecisionGrounding)
    requires Ran(before, g) && before.problems == map[] && before.decisions == map[]
    requires st == before.(problems := map["problem" := StoryProblem(g)], decisions := map["choice" := StoryDecision()])
    ensures Decided(st, g)
  {
    assert Knows(st);
    assert Extends(before, st);
    RanAfter(before, st, g);
  }

  lemma StoryDecided() returns (steps: seq<Step>, st: StoreState, g: DecisionGrounding)
    ensures Reached(steps, st) && Decided(st, g)
  {
    var before, ran, run := StoryRun();
    g := run;
    var posed := StoryAddsProblem(ran, g);
    ProblemApplies(ran, "problem", StoryProblem(g), posed);
    NextStep(before, ran, AdmitProblem("problem", StoryProblem(g)), posed);
    st := StoryAddsDecision(posed, g, ran);
    DecisionApplies(posed, "choice", StoryChoice(), st);
    NextStep(before + [AdmitProblem("problem", StoryProblem(g))], posed, AdmitDecision("choice", StoryChoice()), st);
    steps := before + [AdmitProblem("problem", StoryProblem(g))] + [AdmitDecision("choice", StoryChoice())];
    DecidedAfter(ran, st, g);
  }

  lemma NothingVisible(st: StoreState, snapshot: Id)
    requires st.supersessions == map[]
    ensures Visible(st, snapshot) == {}
  {
  }

  lemma StoryInOrder(g: DecisionGrounding)
    requires RunsAsTold(g)
    ensures Observed(g.observations) == PickScope().candidates
  {
  }

  lemma StoryIsValid(st: StoreState, g: DecisionGrounding)
    requires Decided(st, g)
    ensures ProblemOk(st, StoryProblem(g), ScopeView(st, "scope"))
  {
    StoryIsBuilt(st, g);
    StoryInOrder(g);
    BuiltIsValid(st, StoryProblem(g), ScopeView(st, "scope"));
  }

  lemma BuiltIsValid(st: StoreState, p: Problem, effective: set<Id>)
    requires p.scope in st.scopes && st.scopes[p.scope].id == p.scope
    requires p.scope in st.groundings && st.groundings[p.scope].scope == p.scope
    requires BuildProblem(st, p.scope, effective) == Some(p)
    requires Observed(st.groundings[p.scope].observations) == st.scopes[p.scope].candidates
    ensures ProblemOk(st, p, effective)
  {
    ValidExactlyAsBuilt(st, p, effective);
  }

  lemma StoryIsCurrent(st: StoreState, g: DecisionGrounding)
    requires Decided(st, g)
    ensures StatusOf(st, "choice", "s") == Some(Current)
  {
    StoryIsValid(st, g);
    ChoiceIsAccepted(g, "choice");
    assert DecisionOf("choice", StoryChoice()) == StoryDecision();
    ReachSelf(ParentGraph(st.snapshots), "s");
    NothingVisible(st, "s");
  }

  // ---------------------------------------------------------------- the replacement

  function Newer(): Record
  {
    Realizing("z", "a", "here")
  }

  lemma NewerAdmitted(st: StoreState, next: StoreState)
    requires Knows(st) && next == st.(records := st.records["z" := Newer()])
    ensures AdmitAll(st, [RecordItem(Newer())]) == Ok(next)
  {
    SeemsDistinctExactly(["a", "want"]);
    assert RecordFits(st, Newer());
    assert [RecordItem(Newer())][1..] == [];
    AdmitNext(st, [RecordItem(Newer())], next, next);
  }

  lemma AdmitApplies(st: StoreState, items: seq<Item>, next: StoreState)
    requires AdmitAll(st, items) == Ok(next)
    ensures Apply(st, Admit(items)) == Ok(next)
  {
  }

  lemma BelowApplies(st: StoreState, id: Id, parent: Id, next: StoreState)
    requires Taken(st, id, Some(parent)) == Ok(next)
    ensures Apply(st, TakeSnapshot(id, Some(parent))) == Ok(next)
  {
  }

  ghost predicate Held(st: StoreState, g: DecisionGrounding)
  {
    && Knows(st) && RunsAsTold(g) && st.scopes == map["scope" := PickScope()] && st.groundings == map["scope" := g]
    && st.problems == map["problem" := StoryProblem(g)] && st.decisions == map["choice" := StoryDecision()]
  }

  /** With the newer relation, which only the second snapshot holds. */
  ghost predicate Continued(st: StoreState, g: DecisionGrounding, last: StoreState)
  {
    && Held(st, g) && "t" in last.snapshots
    && last == st.(records := Facts()["z" := Newer()], snapshots := st.snapshots["t" := last.snapshots["t"]])
    && last.snapshots["t"].parent == Some("s")
    && "x" in last.snapshots["t"].records && "z" in last.snapshots["t"].records
  }

  lemma StoryContinues(st: StoreState, g: DecisionGrounding) returns (next: StoreState, last: StoreState)
    requires Decided(st, g)
    ensures AdmitAll(st, [RecordItem(Newer())]) == Ok(next) && Taken(next, "t", Some("s")) == Ok(last) && Continued(st, g, last)
  {
    next := st.(records := st.records["z" := Newer()]);
    NewerAdmitted(st, next);
    TakenExactly(next, "t", Some("s"));
    last := Taken(next, "t", Some("s")).value;
  }

  lemma AddingExtends(st: StoreState, last: StoreState, record: Id, snapshot: Id)
    requires record in last.records && snapshot in last.snapshots && record !in st.records && snapshot !in st.snapshots
    requires last == st.(records := st.records[record := last.records[record]], snapshots := st.snapshots[snapshot := last.snapshots[snapshot]])
    ensures Extends(st, last)
  {
  }

  lemma ContinuedExtends(st: StoreState, g: DecisionGrounding, last: StoreState)
    requires Continued(st, g, last)
    ensures Extends(st, last)
  {
    AddingExtends(st, last, "z", "t");
  }

  lemma ChildTree(snapshots: map<Id, Snapshot>, upper: Id, lower: Id)
    requires upper in snapshots && lower in snapshots && upper != lower
    requires snapshots[upper].parent == None && snapshots[lower].parent == Some(upper)
    ensures Descends(snapshots, lower, upper) && !Descends(snapshots, upper, lower)
  {
    var tree := ParentGraph(snapshots);
    ReachEdge(tree, lower, upper);
    assert Closed(tree, {upper});
    if Reach(tree, upper, lower) {
      ClosedReach(tree, {upper}, upper, lower);
    }
  }

  lemma ContinuedTree(st: StoreState, g: DecisionGrounding, last: StoreState)
    requires Continued(st, g, last)
    ensures Descends(last.snapshots, "t", "s") && !Descends(last.snapshots, "s", "t")
  {
    ChildTree(last.snapshots, "s", "t");
  }

  lemma ContinuedIsCurrent(st: StoreState, g: DecisionGrounding, last: StoreState)
    requires Continued(st, g, last) && KnowledgeSound(st) && DecisionsSound(st) && StatusOf(st, "choice", "s") == Some(Current)
    ensures StatusOf(last, "choice", "s") == Some(Current) && StatusOf(last, "choice", "t") == Some(Current)
  {
    ContinuedExtends(st, g, last);
    StatusFrames.StatusFrame(st, last, "choice", "s");
    ContinuedTree(st, g, last);
    NothingVisible(last, "s");
    NothingVisible(last, "t");
    CurrentBelow(last, "choice", "s", "t");
  }

  function Retirement(): Supersession
  {
    Supersession("x", "z", "t")
  }

  lemma RetirementIsPlaced(st: StoreState, g: DecisionGrounding, last: StoreState)
    requires Continued(st, g, last)
    ensures Superseded(last, Retirement()) == Ok(WithEdge(last, Retirement()))
  {
    assert Wellplaced(last, Retirement());
    FirstEdge(last, Retirement());
  }

  lemma NotHeldIsNotEffective(st: StoreState, snapshot: Id, x: Id)
    requires snapshot in st.snapshots && x !in st.snapshots[snapshot].records
    ensures x !in Effective(st, snapshot)
  {
    assert x !in RecordSet(st.snapshots[snapshot]);
    assert Effective(st, snapshot) <= Base(st, snapshot);
  }

  lemma RetirementIsUnseen(st: StoreState, g: DecisionGrounding, last: StoreState)
    requires Continued(st, g, last)
    ensures BelowUnseen(last, Retirement(), "s")
  {
    ContinuedTree(st, g, last);
    NotHeldIsNotEffective(last, "s", "z");
  }

  lemma RestsOnX(st: StoreState, g: DecisionGrounding, last: StoreState)
    requires Continued(st, g, last)
    ensures LeadsTo(last, StoryProblem(g), ["x"], "x")
  {
    assert g.observations[0] in g.observations && "x" in g.observations[0].evidence.value.included;
  }

  lemma RetirementTurnsStale(st: StoreState, g: DecisionGrounding, last: StoreState)
    requires Continued(st, g, last) && StatusOf(last, "choice", "t") == Some(Current)
    ensures StatusOf(WithEdge(last, Retirement()), "choice", "t") == Some(Stale)
  {
    RetirementIsUnseen(st, g, last);
    RestsOnX(st, g, last);
    ReplacedBelowExactly(last, Retirement(), "choice");
  }

  lemma RetirementKeepsAbove(st: StoreState, g: DecisionGrounding, last: StoreState)
    requires Continued(st, g, last) && Sound(last) && StatusOf(last, "choice", "s") == Some(Current)
    ensures StatusOf(WithEdge(last, Retirement()), "choice", "s") == Some(Current)
  {
    ContinuedTree(st, g, last);
    RetirementIsUnseen(st, g, last);
    RetirementIsPlaced(st, g, last);
    ElsewhereKeepsStatus(last, Retirement(), "choice", "s");
  }

  lemma StoryRunsOn() returns (steps: seq<Step>, st: StoreState, g: DecisionGrounding, last: StoreState)
    ensures Reached(steps, last) && Continued(st, g, last) && Sound(st) && Sound(last) && StatusOf(st, "choice", "s") == Some(Current)
  {
    var before;
    before, st, g := StoryDecided();
    ReachableSound(before);
    StoryIsCurrent(st, g);
    var next;
    next, last := StoryContinues(st, g);
    AdmitApplies(st, [RecordItem(Newer())], next);
    NextStep(before, st, Admit([RecordItem(Newer())]), next);
    BelowApplies(next, "t", "s", last);
    NextStep(before + [Admit([RecordItem(Newer())])], next, TakeSnapshot("t", Some("s")), last);
    steps := before + [Admit([RecordItem(Newer())])] + [TakeSnapshot("t", Some("s"))];
    ReachableSound(steps);
  }

  /**
   * From an empty store: candidate a, admitted by the relation x that its context sees, is chosen at its cost of 3, while
   * b, of which only the unseen y says that it realizes the intention, is excluded although it would cost 1. The decision
   * is CURRENT at a later snapshot; once x is retired there it is STALE, and stays CURRENT where it was made.
   */
  lemma RetiringTurnsStale() returns (steps: seq<Step>)
    ensures var st := Run(EmptyStore(), steps);
            && "scope" in st.groundings && RunsAsTold(st.groundings["scope"])
            && "choice" in st.decisions && st.decisions["choice"] == StoryDecision()
            && StatusOf(st, "choice", "t") == Some(Current)
    ensures var st := Run(EmptyStore(), steps + [Supersede("x", "z", "t")]);
            StatusOf(st, "choice", "t") == Some(Stale) && StatusOf(st, "choice", "s") == Some(Current)
  {
    var before, g, last;
    steps, before, g, last := StoryRunsOn();
    ContinuedIsCurrent(before, g, last);
    RetirementTurnsStale(before, g, last);
    RetirementKeepsAbove(before, g, last);
    RetirementIsPlaced(before, g, last);
    SupersedeApplies(last, Retirement(), WithEdge(last, Retirement()));
    NextStep(steps, last, Supersede("x", "z", "t"), WithEdge(last, Retirement()));
  }
}

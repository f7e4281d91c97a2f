/** What the two searches list, told without them: a chain is a list of producers each built on the one before. */
module ExplosionPlans {
  import opened Enumeration
  import opened Explosion
  import opened ExplosionTheorems
  import opened Ordering

  // ---------------------------------------------------------------- chains

  /** The steps start from nothing, each depends on what the one before produces, and the last produces the resource. */
  ghost predicate Builds(c: Catalog, steps: seq<Producer>, resource: string)
  {
    && steps != [] && (forall i :: 0 <= i < |steps| ==> steps[i] in c.producers)
    && steps[0].dependency.None?
    && (forall i :: 0 < i < |steps| ==> steps[i].dependency == Some(steps[i - 1].resource))
    && steps[|steps| - 1].resource == resource
  }

  function Called(steps: seq<Producer>): (names: seq<string>)
  {
    seq(|steps|, i requires 0 <= i < |steps| => steps[i].name)
  }

  lemma BuildsFurther(c: Catalog, steps: seq<Producer>, p: Producer)
    requires p in c.producers && p.dependency.Some? && Builds(c, steps, p.dependency.value)
    ensures Builds(c, steps + [p], p.resource) && Called(steps + [p]) == Called(steps) + [p.name]
  {
  }

  lemma {:induction false} ChainsAreBuilt(c: Catalog, resource: string, names: seq<string>) returns (steps: seq<Producer>)
    requires Founded(c) && names in Chains(c, resource)
    ensures Builds(c, steps, resource) && names == Called(steps)
    decreases Height(c, resource)
  {
    var ps := ProducersFor(c.producers, resource);
    ViaMembers(c, resource, ps, names);
    var p :| p in ps && names in ChainsBy(c, p);
    if p.dependency.None? {
      steps := [p];
    } else {
      AppendEachMembers(Chains(c, p.dependency.value), p.name, names);
      var below :| below in Chains(c, p.dependency.value) && names == below + [p.name];
      steps := ChainsAreBuilt(c, p.dependency.value, below);
      BuildsFurther(c, steps, p);
      steps := steps + [p];
    }
  }

  lemma {:induction false} BuiltAreChains(c: Catalog, resource: string, steps: seq<Producer>)
    requires Founded(c) && Builds(c, steps, resource)
    ensures Called(steps) in Chains(c, resource)
    decreases |steps|
  {
    var last := |steps| - 1;
    var p := steps[last];
    var ps := ProducersFor(c.producers, resource);
    if last > 0 {
      var below := steps[..last];
      assert p.dependency == Some(steps[last - 1].resource);
      assert Builds(c, below, p.dependency.value);
      BuiltAreChains(c, p.dependency.value, below);
      AppendEachMembers(Chains(c, p.dependency.value), p.name, Called(steps));
      assert Called(steps) == Called(below) + [p.name];
    } else {
      assert Called(steps) == [p.name];
    }
    assert Called(steps) in ChainsBy(c, p);
    ViaMembers(c, resource, ps, Called(steps));
  }

  /** The chains of a resource are exactly the names of the ways to build it. */
  lemma ChainsExactly(c: Catalog, resource: string, names: seq<string>)
    requires Founded(c)
    ensures names in Chains(c, resource) <==> exists steps :: Builds(c, steps, resource) && names == Called(steps)
  {
    if names in Chains(c, resource) {
      var steps := ChainsAreBuilt(c, resource, names);
    }
    if steps :| Builds(c, steps, resource) && names == Called(steps) {
      BuiltAreChains(c, resource, steps);
    }
  }

  // ---------------------------------------------------------------- selections

  ghost predicate OnePerIntent(c: Catalog, selected: seq<Alternative>)
  {
    && |selected| == |c.intents|
    && forall i :: 0 <= i < |selected| ==> selected[i] in c.alternatives && selected[i].intent == c.intents[i]
  }

  lemma SelectionsExactly(c: Catalog, selected: seq<Alternative>)
    ensures selected in Product(ByIntent(c)) <==> OnePerIntent(c, selected)
  {
    ProductMembers(ByIntent(c), selected);
    forall i | 0 <= i < |c.intents| ensures forall a :: a in ByIntent(c)[i] <==> a in c.alternatives && a.intent == c.intents[i] {
      assert ByIntent(c)[i] == OfIntent(c.alternatives, c.intents[i]);
    }
  }

  ghost predicate ListsNames(names: seq<string>, selected: seq<Alternative>)
  {
    |names| == |selected| && forall i :: 0 <= i < |selected| ==> names[i] == selected[i].name
  }

  // ---------------------------------------------------------------- sums

  /** The sums grow by one cost with every member: of the alternative itself, of the first producer of the name, and
      of the last producer of the name. */
  lemma {:induction false} SumsGrow(selected: seq<Alternative>, a: Alternative, ps: seq<Producer>, names: seq<string>, name: string)
    ensures SumSelected([]) == SumFirst(ps, []) == SumByName(ps, []) == 0
    ensures SumSelected(selected + [a]) == SumSelected(selected) + a.cost
    ensures SumFirst(ps, names + [name]) == SumFirst(ps, names) + CostOf(FirstProducer(ps, name))
    ensures SumByName(ps, names + [name]) == SumByName(ps, names) + CostOf(ProducerByName(ps, name))
    decreases |selected| + |names|
  {
    if selected != [] {
      SumsGrow(selected[1..], a, ps, [], name);
      assert (selected + [a])[1..] == selected[1..] + [a];
    }
    if names != [] {
      SumsGrow([], a, ps, names[1..], name);
      assert (names + [name])[0] == names[0] && (names + [name])[1..] == names[1..] + [name];
    }
  }

  /** One search looks a name up from the front of the catalogue. */
  lemma {:induction false} FirstOfName(ps: seq<Producer>, name: string) returns (at: nat)
    ensures at <= |ps| && forall j :: 0 <= j < at ==> ps[j].name != name
    ensures FirstProducer(ps, name) == if at < |ps| then Some(ps[at]) else None
    ensures at < |ps| ==> ps[at].name == name
  {
    if ps == [] || ps[0].name == name {
      at := 0;
    } else {
      var later := FirstOfName(ps[1..], name);
      at := later + 1;
      assert forall j :: 0 < j < |ps| ==> ps[j] == ps[1..][j - 1];
    }
  }

  /** The other one has a dictionary, in which the last producer of a name is left. */
  lemma {:induction false} LastOfName(ps: seq<Producer>, name: string) returns (at: int)
    ensures -1 <= at < |ps| && forall j :: at < j < |ps| ==> ps[j].name != name
    ensures ProducerByName(ps, name) == if at >= 0 then Some(ps[at]) else None
    ensures at >= 0 ==> ps[at].name == name
  {
    if ps == [] {
      at := -1;
    } else {
      var later := LastOfName(ps[1..], name);
      at := if later >= 0 then later + 1 else if ps[0].name == name then 0 else -1;
      assert forall j :: 0 < j < |ps| ==> ps[j] == ps[1..][j - 1];
    }
  }

  // ---------------------------------------------------------------- the plans of the naive search

  /** A way to build what each alternative requires, and nothing for one that requires nothing. */
  ghost predicate Assembled(c: Catalog, selected: seq<Alternative>, picks: seq<seq<Producer>>)
  {
    && |picks| == |selected|
    && forall i :: 0 <= i < |selected| ==>
         if selected[i].resource.Some? then Builds(c, picks[i], selected[i].resource.value) else picks[i] == []
  }

  function AllCalled(picks: seq<seq<Producer>>): seq<string>
  {
    if picks == [] then [] else Called(picks[0]) + AllCalled(picks[1..])
  }

  lemma {:induction false} PicksAreChosen(c: Catalog, selected: seq<Alternative>, picks: seq<seq<Producer>>)
    returns (choice: seq<seq<string>>)
    requires Founded(c) && Assembled(c, selected, picks)
    ensures Chosen(c, Needs(selected), choice) && Flatten(choice) == AllCalled(picks)
    decreases |selected|
  {
    if selected == [] {
      choice := [];
    } else {
      assert Assembled(c, selected[1..], picks[1..]) by {
        assert forall i :: 0 <= i < |selected[1..]| ==> selected[1..][i] == selected[i + 1] && picks[1..][i] == picks[i + 1];
      }
      choice := PicksAreChosen(c, selected[1..], picks[1..]);
      if selected[0].resource.Some? {
        var resource := selected[0].resource.value;
        BuiltAreChains(c, resource, picks[0]);
        ChosenCons(c, resource, Needs(selected[1..]), Called(picks[0]), choice);
        choice := [Called(picks[0])] + choice;
      } else {
        assert AllCalled(picks) == [] + AllCalled(picks[1..]) == AllCalled(picks[1..]);
        assert Needs(selected) == [] + Needs(selected[1..]) == Needs(selected[1..]);
      }
    }
  }

  lemma {:induction false} ChosenArePicks(c: Catalog, selected: seq<Alternative>, choice: seq<seq<string>>)
    returns (picks: seq<seq<Producer>>)
    requires Founded(c) && Chosen(c, Needs(selected), choice)
    ensures Assembled(c, selected, picks) && AllCalled(picks) == Flatten(choice)
    decreases |selected|
  {
    if selected == [] {
      picks := [];
    } else if selected[0].resource.Some? {
      var resource := selected[0].resource.value;
      ChosenUncons(c, resource, Needs(selected[1..]), choice);
      var rest := ChosenArePicks(c, selected[1..], choice[1..]);
      var steps := ChainsAreBuilt(c, resource, choice[0]);
      picks := [steps] + rest;
      AssembledCons(c, selected, steps, rest);
    } else {
      assert Needs(selected) == [] + Needs(selected[1..]) == Needs(selected[1..]);
      var rest := ChosenArePicks(c, selected[1..], choice);
      picks := [[]] + rest;
      AssembledCons(c, selected, [], rest);
      assert Called([]) + AllCalled(rest) == AllCalled(rest);
    }
  }

  lemma AssembledCons(c: Catalog, selected: seq<Alternative>, steps: seq<Producer>, rest: seq<seq<Producer>>)
    requires selected != [] && Assembled(c, selected[1..], rest)
    requires if selected[0].resource.Some? then Builds(c, steps, selected[0].resource.value) else steps == []
    ensures Assembled(c, selected, [steps] + rest) && AllCalled([steps] + rest) == Called(steps) + AllCalled(rest)
  {
    var picks := [steps] + rest;
    assert picks[1..] == rest;
    forall i | 0 <= i < |selected|
      ensures if selected[i].resource.Some? then Builds(c, picks[i], selected[i].resource.value) else picks[i] == []
    {
      if i > 0 {
        assert selected[i] == selected[1..][i - 1] && picks[i] == rest[i - 1];
      }
    }
  }

  /** The selection's names, the names of all steps one pick after the other, and every one of them paid for. */
  ghost predicate NaivePlanOf(c: Catalog, plan: Plan, selected: seq<Alternative>, picks: seq<seq<Producer>>)
  {
    && OnePerIntent(c, selected) && Assembled(c, selected, picks)
    && ListsNames(plan.realizations, selected)
    && plan.producers == AllCalled(picks)
    && plan.cost == SumSelected(selected) + SumFirst(c.producers, plan.producers)
  }

  lemma NamesListed(names: seq<string>, selected: seq<Alternative>)
    ensures ListsNames(names, selected) <==> names == NamesOf(selected)
  {
  }

  /** Exactly which plans the naive search lists. */
  lemma NaivePlansExactly(c: Catalog, plan: Plan)
    requires Founded(c)
    ensures plan in NaivePlans(c) <==> exists selected, picks :: NaivePlanOf(c, plan, selected, picks)
  {
    if plan in NaivePlans(c) {
      var selected, choice := NaiveIsCombination(c, plan);
      SelectionsExactly(c, selected);
      var picks := ChosenArePicks(c, selected, choice);
      NamesListed(plan.realizations, selected);
      assert NaivePlanOf(c, plan, selected, picks);
    }
    if selected, picks :| NaivePlanOf(c, plan, selected, picks) {
      SelectionsExactly(c, selected);
      NamesListed(plan.realizations, selected);
      var choice := PicksAreChosen(c, selected, picks);
      var listed := CombinationIsNaive(c, selected, choice);
      assert listed == plan;
    }
  }

  // ---------------------------------------------------------------- the plans of the memoised search

  /** One way to build each resource that some selected alternative requires. */
  ghost predicate BuiltOnce(c: Catalog, selected: seq<Alternative>, picks: map<string, seq<Producer>>)
  {
    && (forall r :: r in picks <==> exists a :: a in selected && a.resource == Some(r))
    && forall r :: r in picks ==> Builds(c, picks[r], r)
  }

  /** The selection's names, the names of the steps in order, and each of them paid for once. */
  ghost predicate MemoPlanOf(c: Catalog, plan: Plan, selected: seq<Alternative>, picks: map<string, seq<Producer>>)
  {
    && OnePerIntent(c, selected) && BuiltOnce(c, selected, picks)
    && ListsNames(plan.realizations, selected)
    && Ascending(plan.producers) && (forall x :: x in plan.producers <==> exists r :: r in picks && x in Called(picks[r]))
    && plan.cost == SumSelected(selected) + SumByName(c.producers, plan.producers)
  }

  lemma ListedOnce(names: seq<string>, choice: seq<seq<string>>)
    requires Ascending(names) && forall x :: x in names <==> exists i :: 0 <= i < |choice| && x in choice[i]
    ensures names == SortNames(AsSet(Flatten(choice)))
  {
    FlattenMembers(choice);
    AscendingUnique(names, SortNames(AsSet(Flatten(choice))));
  }

  ghost function WayToBuild(c: Catalog, resource: string, names: seq<string>): (steps: seq<Producer>)
    requires exists steps :: Builds(c, steps, resource) && names == Called(steps)
    ensures Builds(c, steps, resource) && names == Called(steps)
  {
    var steps :| Builds(c, steps, resource) && names == Called(steps);
    steps
  }

  /** The chains of `choice` are those of `picks`, resource by resource. */
  ghost predicate Matching(sorted: seq<string>, choice: seq<seq<string>>, picks: map<string, seq<Producer>>)
  {
    && Ascending(sorted) && |choice| == |sorted| && (forall r :: r in sorted <==> r in picks)
    && forall i :: 0 <= i < |sorted| ==> sorted[i] in picks && choice[i] == Called(picks[sorted[i]])
  }

  lemma MatchingNames(sorted: seq<string>, choice: seq<seq<string>>, picks: map<string, seq<Producer>>, x: string)
    requires Matching(sorted, choice, picks)
    ensures (exists i :: 0 <= i < |choice| && x in choice[i]) <==> exists r :: r in picks && x in Called(picks[r])
  {
    if i :| 0 <= i < |choice| && x in choice[i] {
      assert sorted[i] in picks && x in Called(picks[sorted[i]]);
    }
    if r :| r in picks && x in Called(picks[r]) {
      assert sorted[IndexOf(sorted, r)] == r && x in choice[IndexOf(sorted, r)];
    }
  }

  lemma ChoicePicked(c: Catalog, sorted: seq<string>, choice: seq<seq<string>>) returns (picks: map<string, seq<Producer>>)
    requires Founded(c) && Ascending(sorted) && Chosen(c, sorted, choice)
    ensures Matching(sorted, choice, picks) && forall r :: r in picks ==> Builds(c, picks[r], r)
  {
    forall i | 0 <= i < |sorted| ensures exists steps :: Builds(c, steps, sorted[i]) && choice[i] == Called(steps) {
      ChainsExactly(c, sorted[i], choice[i]);
    }
    picks := map r | r in sorted :: WayToBuild(c, r, choice[IndexOf(sorted, r)]);
    forall i | 0 <= i < |sorted| ensures choice[i] == Called(picks[sorted[i]]) {
      AscendingDistinct(sorted, i, IndexOf(sorted, sorted[i]));
    }
  }

  lemma PicksChoice(c: Catalog, sorted: seq<string>, picks: map<string, seq<Producer>>) returns (choice: seq<seq<string>>)
    requires Founded(c) && Ascending(sorted) && (forall r :: r in sorted <==> r in picks)
    requires forall r :: r in picks ==> Builds(c, picks[r], r)
    ensures Chosen(c, sorted, choice) && Matching(sorted, choice, picks)
  {
    choice := seq(|sorted|, i requires 0 <= i < |sorted| => assert sorted[i] in sorted; Called(picks[sorted[i]]));
    forall i | 0 <= i < |sorted| ensures sorted[i] in picks && choice[i] in Chains(c, sorted[i]) {
      assert sorted[i] in sorted;
      BuiltAreChains(c, sorted[i], picks[sorted[i]]);
    }
  }

  lemma MemoIsBuilt(c: Catalog, plan: Plan) returns (selected: seq<Alternative>, picks: map<string, seq<Producer>>)
    requires Founded(c) && plan in MemoPlans(c)
    ensures MemoPlanOf(c, plan, selected, picks)
  {
    var choice;
    selected, choice := MemoIsCombination(c, plan);
    SelectionsExactly(c, selected);
    NamesListed(plan.realizations, selected);
    picks := ChoicePicked(c, SortedNeeds(selected), choice);
    FlattenMembers(choice);
    forall x ensures x in plan.producers <==> exists r :: r in picks && x in Called(picks[r]) {
      MatchingNames(SortedNeeds(selected), choice, picks, x);
    }
  }

  lemma MatchingListed(names: seq<string>, sorted: seq<string>, choice: seq<seq<string>>, picks: map<string, seq<Producer>>)
    requires Ascending(names) && Matching(sorted, choice, picks)
    requires forall x :: x in names <==> exists r :: r in picks && x in Called(picks[r])
    ensures names == SortNames(AsSet(Flatten(choice)))
  {
    forall x ensures x in names <==> exists i :: 0 <= i < |choice| && x in choice[i] {
      MatchingNames(sorted, choice, picks, x);
    }
    ListedOnce(names, choice);
  }

  lemma NeedsSorted(selected: seq<Alternative>, picks: map<string, seq<Producer>>)
    requires forall r :: r in picks <==> exists a :: a in selected && a.resource == Some(r)
    ensures forall r :: r in SortedNeeds(selected) <==> r in picks
  {
    forall r ensures r in ResourcesOf(selected) <==> r in picks {
    }
  }

  lemma BuiltIsMemo(c: Catalog, plan: Plan, selected: seq<Alternative>, picks: map<string, seq<Producer>>)
    requires Founded(c) && MemoPlanOf(c, plan, selected, picks)
    ensures plan in MemoPlans(c)
  {
    SelectionsExactly(c, selected);
    NamesListed(plan.realizations, selected);
    NeedsSorted(selected, picks);
    var choice := PicksChoice(c, SortedNeeds(selected), picks);
    MatchingListed(plan.producers, SortedNeeds(selected), choice, picks);
    assert plan == MemoPlan(c, selected, choice);
    CombinationIsMemo(c, selected, choice);
  }

  /** Exactly which plans the memoised search lists. */
  lemma MemoPlansExactly(c: Catalog, plan: Plan)
    requires Founded(c)
    ensures plan in MemoPlans(c) <==> exists selected, picks :: MemoPlanOf(c, plan, selected, picks)
  {
    if plan in MemoPlans(c) {
      var selected, picks := MemoIsBuilt(c, plan);
    }
    if selected, picks :| MemoPlanOf(c, plan, selected, picks) {
      BuiltIsMemo(c, plan, selected, picks);
    }
  }
}

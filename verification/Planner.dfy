/**
 * Candidate discovery: the recursive resolver, plan enumeration and the choice of the cheapest
 * plan (experiments/candidate-discovery/candidate_discovery.py).
 */
module Planner {
  import opened Enumeration
  import opened Ordering

  datatype Realization = Realization(name: string, intent: string, needs: seq<string>, cost: int)

  datatype Producer = Producer(name: string, resource: string, needs: seq<string>, cost: int)

  datatype Catalog = Catalog(realizations: seq<Realization>, producers: seq<Producer>)

  datatype Scenario = Scenario(present: set<string>, enabled: set<string>)

  datatype Plan = Plan(goals: seq<string>, realizations: seq<string>, producers: seq<string>,
                       present: seq<string>, produced: seq<string>, cost: int)

  datatype Resolution = Resolution(producers: seq<Producer>, present: set<string>, produced: set<string>)

  // ---------------------------------------------------------------- specification functions

  /** Adds one entry to a dictionary that is kept as its name-sorted list of values. */
  function Upsert(byName: seq<Producer>, p: Producer): seq<Producer>
  {
    if byName == [] then [p]
    else if byName[0].name == p.name then [p] + byName[1..]
    else if Below(p.name, byName[0].name) then [p] + byName
    else [byName[0]] + Upsert(byName[1..], p)
  }

  /** `_unique_producers` over the concatenated groups: the last producer of each name, sorted by name. */
  function UniqueProducers(ps: seq<Producer>): seq<Producer>
  {
    if ps == [] then [] else Upsert(UniqueProducers(ps[..|ps| - 1]), ps[|ps| - 1])
  }

  ghost predicate SortedByName(ps: seq<Producer>)
  {
    forall i, j :: 0 <= i < j < |ps| ==> Below(ps[i].name, ps[j].name)
  }

  lemma UpsertMembers(byName: seq<Producer>, p: Producer)
    requires SortedByName(byName)
    ensures forall q :: q in Upsert(byName, p) <==> q == p || (q in byName && q.name != p.name)
  {
    if byName != [] {
      var tail := byName[1..];
      assert byName == [byName[0]] + tail;
      assert forall q :: q in tail ==> Below(byName[0].name, q.name);
      if byName[0].name == p.name {
        BelowTotal(p.name, p.name);
      } else if Below(p.name, byName[0].name) {
        BelowTotal(p.name, p.name);
        forall q | q in tail ensures q.name != p.name {
          BelowTransitive(p.name, byName[0].name, q.name);
        }
      } else {
        UpsertMembers(tail, p);
      }
    }
  }

  lemma SortedPrepend(p: Producer, rest: seq<Producer>)
    requires SortedByName(rest) && forall q :: q in rest ==> Below(p.name, q.name)
    ensures SortedByName([p] + rest)
  {
    var all := [p] + rest;
    forall i, j | 0 <= i < j < |all| ensures Below(all[i].name, all[j].name) {
      assert all[j] == rest[j - 1] && rest[j - 1] in rest;
    }
  }

  lemma SortedTail(byName: seq<Producer>)
    requires SortedByName(byName) && byName != []
    ensures SortedByName(byName[1..]) && forall q :: q in byName[1..] ==> Below(byName[0].name, q.name)
  {
  }

  lemma UpsertSpec(byName: seq<Producer>, p: Producer)
    requires SortedByName(byName)
    ensures SortedByName(Upsert(byName, p))
    ensures forall q :: q in Upsert(byName, p) <==> q == p || (q in byName && q.name != p.name)
  {
    UpsertMembers(byName, p);
    if byName != [] {
      var head, tail := byName[0], byName[1..];
      SortedTail(byName);
      BelowTotal(head.name, p.name);
      assert byName == [head] + tail;
      if head.name == p.name {
        SortedPrepend(p, tail);
      } else if Below(p.name, head.name) {
        forall q | q in byName ensures Below(p.name, q.name) {
          if q != head {
            BelowTransitive(p.name, head.name, q.name);
          }
        }
        SortedPrepend(p, byName);
      } else {
        UpsertSpec(tail, p);
        SortedPrepend(head, Upsert(tail, p));
      }
    }
  }

  /** `p` is the last of its name. */
  ghost predicate LastNamed(ps: seq<Producer>, p: Producer)
  {
    exists i :: 0 <= i < |ps| && ps[i] == p && forall j :: i < j < |ps| ==> ps[j].name != p.name
  }

  lemma LastNamedMore(init: seq<Producer>, last: Producer, p: Producer)
    ensures LastNamed(init + [last], p) <==> p == last || (LastNamed(init, p) && p.name != last.name)
  {
    var ps := init + [last];
    if p == last {
      assert ps[|init|] == p;
    } else if LastNamed(init, p) && p.name != last.name {
      var i :| 0 <= i < |init| && init[i] == p && forall j :: i < j < |init| ==> init[j].name != p.name;
      assert ps[i] == p;
    } else if LastNamed(ps, p) {
      var i :| 0 <= i < |ps| && ps[i] == p && forall j :: i < j < |ps| ==> ps[j].name != p.name;
      assert ps[|init|] == last && init[i] == p;
      forall j | i < j < |init| ensures init[j].name != p.name {
        assert ps[j] == init[j];
      }
    }
  }

  /** The tuple is sorted by name and holds exactly the last producer of every name. */
  lemma {:induction false} UniqueProducersExactly(ps: seq<Producer>)
    ensures SortedByName(UniqueProducers(ps))
    ensures forall p :: p in UniqueProducers(ps) <==> LastNamed(ps, p)
  {
    if ps != [] {
      var init, last := ps[..|ps| - 1], ps[|ps| - 1];
      assert ps == init + [last];
      UniqueProducersExactly(init);
      UpsertSpec(UniqueProducers(init), last);
      forall p ensures p in UniqueProducers(ps) <==> LastNamed(ps, p) {
        LastNamedMore(init, last, p);
      }
    }
  }

  /** The catalogue's producers of `resource` that the scenario enables, in catalogue order. */
  function Enabled(ps: seq<Producer>, resource: string, enabled: set<string>): seq<Producer>
  {
    if ps == [] then []
    else
      (if ps[0].resource == resource && ps[0].name in enabled then [ps[0]] else [])
      + Enabled(ps[1..], resource, enabled)
  }

  function Producible(catalog: Catalog): set<string>
  {
    set p | p in catalog.producers :: p.resource
  }

  lemma EnabledMembers(ps: seq<Producer>, resource: string, enabled: set<string>)
    ensures forall p :: p in Enabled(ps, resource, enabled)
                        <==> p in ps && p.resource == resource && p.name in enabled
  {
  }

  /** A resource that is already known contributes itself when the scenario provides it. */
  function NotePresent(resolution: Resolution, resource: string, scenario: Scenario): Resolution
  {
    resolution.(present := resolution.present + (if resource in scenario.present then {resource} else {}))
  }

  function NotePresentAll(resolutions: seq<Resolution>, resource: string, scenario: Scenario): (r: seq<Resolution>)
  {
    if resolutions == [] then []
    else [NotePresent(resolutions[0], resource, scenario)] + NotePresentAll(resolutions[1..], resource, scenario)
  }

  function Join(dependency: Resolution, p: Producer, remaining: Resolution): Resolution
  {
    Resolution(UniqueProducers(dependency.producers + [p] + remaining.producers),
               dependency.present + remaining.present,
               dependency.produced + remaining.produced + {p.resource})
  }

  function JoinAll(dependency: Resolution, p: Producer, remaining: seq<Resolution>): seq<Resolution>
  {
    if remaining == [] then [] else [Join(dependency, p, remaining[0])] + JoinAll(dependency, p, remaining[1..])
  }

  /** `_resolve_resources`. The recursion ends because each producer chosen makes one more producible
      resource active, and otherwise the list of wanted resources gets shorter. */
  function Resolve(wanted: seq<string>, catalog: Catalog, scenario: Scenario,
                   known: set<string>, active: set<string>): seq<Resolution>
    decreases |Producible(catalog) - active|, |wanted|, 0, 0
  {
    if wanted == [] then [Resolution([], {}, {})]
    else if wanted[0] in known then
      NotePresentAll(Resolve(wanted[1..], catalog, scenario, known, active), wanted[0], scenario)
    else if wanted[0] in active then []
    else
      var producers := Enabled(catalog.producers, wanted[0], scenario.enabled);
      EnabledMembers(catalog.producers, wanted[0], scenario.enabled);
      ResolveVia(producers, wanted[0], wanted[1..], catalog, scenario, known, active)
  }

  function ResolveVia(producers: seq<Producer>, resource: string, rest: seq<string>, catalog: Catalog,
                      scenario: Scenario, known: set<string>, active: set<string>): seq<Resolution>
    requires resource !in active
    requires forall p :: p in producers ==> p in catalog.producers && p.resource == resource
    decreases |Producible(catalog) - active|, |rest|, 2, |producers|
  {
    if producers == [] then []
    else
      assert producers[0] in producers;
      ActiveShrinks(catalog, active, resource);
      var dependencies := Resolve(producers[0].needs, catalog, scenario, known, active + {resource});
      ContinueAll(dependencies, producers[0], rest, catalog, scenario, known, active)
      + ResolveVia(producers[1..], resource, rest, catalog, scenario, known, active)
  }

  function ContinueAll(dependencies: seq<Resolution>, p: Producer, rest: seq<string>, catalog: Catalog,
                       scenario: Scenario, known: set<string>, active: set<string>): seq<Resolution>
    decreases |Producible(catalog) - active|, |rest|, 1, |dependencies|
  {
    if dependencies == [] then []
    else
      JoinAll(dependencies[0], p,
              Resolve(rest, catalog, scenario, known + dependencies[0].produced + {p.resource}, active))
      + ContinueAll(dependencies[1..], p, rest, catalog, scenario, known, active)
  }

  lemma ActiveShrinks(catalog: Catalog, active: set<string>, resource: string)
    requires resource in Producible(catalog) && resource !in active
    ensures |Producible(catalog) - (active + {resource})| < |Producible(catalog) - active|
  {
    assert Producible(catalog) - (active + {resource}) == Producible(catalog) - active - {resource};
  }

  /** One turn of the loop over producers. */
  lemma ViaStep(producers: seq<Producer>, i: nat, resource: string, rest: seq<string>, catalog: Catalog,
                scenario: Scenario, known: set<string>, active: set<string>, found: seq<Resolution>)
    requires i < |producers| && resource !in active
    requires forall p :: p in producers ==> p in catalog.producers && p.resource == resource
    ensures producers[i] in producers && resource in Producible(catalog)
    ensures var dependencies := Resolve(producers[i].needs, catalog, scenario, known, active + {resource});
            found + ResolveVia(producers[i..], resource, rest, catalog, scenario, known, active)
            == (found + ContinueAll(dependencies, producers[i], rest, catalog, scenario, known, active))
               + ResolveVia(producers[i + 1..], resource, rest, catalog, scenario, known, active)
  {
    assert producers[i..][0] == producers[i] && producers[i..][1..] == producers[i + 1..];
  }

  /** One turn of the loop over the resolutions of a producer's own requirements. */
  lemma ContinueStep(dependencies: seq<Resolution>, j: nat, p: Producer, rest: seq<string>, catalog: Catalog,
                     scenario: Scenario, known: set<string>, active: set<string>, found: seq<Resolution>)
    requires j < |dependencies|
    ensures var remaining := Resolve(rest, catalog, scenario, known + dependencies[j].produced + {p.resource}, active);
            found + ContinueAll(dependencies[j..], p, rest, catalog, scenario, known, active)
            == (found + JoinAll(dependencies[j], p, remaining))
               + ContinueAll(dependencies[j + 1..], p, rest, catalog, scenario, known, active)
  {
    assert dependencies[j..][0] == dependencies[j] && dependencies[j..][1..] == dependencies[j + 1..];
  }

  // ---------------------------------------------------------------- the resolver itself

  method UniqueProducerTuple(ps: seq<Producer>) returns (unique: seq<Producer>)
    ensures unique == UniqueProducers(ps)
    ensures SortedByName(unique) && forall p :: p in unique <==> LastNamed(ps, p)
  {
    unique := [];
    for i := 0 to |ps|
      invariant unique == UniqueProducers(ps[..i])
    {
      assert ps[..i + 1][..i] == ps[..i];
      unique := Upsert(unique, ps[i]);
    }
    assert ps[..|ps|] == ps;
    UniqueProducersExactly(ps);
  }

  /** The innermost loop: one resolution for every way to resolve the remaining resources. */
  method AppendJoins(found: seq<Resolution>, dependency: Resolution, p: Producer, remaining: seq<Resolution>)
    returns (resolutions: seq<Resolution>)
    ensures resolutions == found + JoinAll(dependency, p, remaining)
  {
    resolutions := found;
    for k := 0 to |remaining|
      invariant resolutions + JoinAll(dependency, p, remaining[k..]) == found + JoinAll(dependency, p, remaining)
    {
      var unique := UniqueProducerTuple(dependency.producers + [p] + remaining[k].producers);
      var joined := Resolution(unique, dependency.present + remaining[k].present,
                               dependency.produced + remaining[k].produced + {p.resource});
      assert joined == Join(dependency, p, remaining[k]);
      assert remaining[k..][1..] == remaining[k + 1..];
      assert resolutions + JoinAll(dependency, p, remaining[k..])
          == (resolutions + [joined]) + JoinAll(dependency, p, remaining[k + 1..]);
      resolutions := resolutions + [joined];
    }
  }

  /** The middle loop: every resolution of the producer's own requirements. */
  method AppendContinuations(found: seq<Resolution>, dependencies: seq<Resolution>, p: Producer, rest: seq<string>,
                             catalog: Catalog, scenario: Scenario, known: set<string>, active: set<string>)
    returns (resolutions: seq<Resolution>)
    ensures resolutions == found + ContinueAll(dependencies, p, rest, catalog, scenario, known, active)
    decreases |Producible(catalog) - active|, |rest|, 1
  {
    resolutions := found;
    for j := 0 to |dependencies|
      invariant resolutions + ContinueAll(dependencies[j..], p, rest, catalog, scenario, known, active)
             == found + ContinueAll(dependencies, p, rest, catalog, scenario, known, active)
    {
      var nextKnown := known + dependencies[j].produced + {p.resource};
      var remaining := ResolveResources(rest, catalog, scenario, nextKnown, active);
      ContinueStep(dependencies, j, p, rest, catalog, scenario, known, active, resolutions);
      resolutions := AppendJoins(resolutions, dependencies[j], p, remaining);
    }
  }

  /** The recursive search of the source, with its growing list of resolutions. */
  method ResolveResources(wanted: seq<string>, catalog: Catalog, scenario: Scenario,
                          known: set<string>, active: set<string>) returns (resolutions: seq<Resolution>)
    ensures resolutions == Resolve(wanted, catalog, scenario, known, active)
    decreases |Producible(catalog) - active|, |wanted|, 0
  {
    if wanted == [] {
      return [Resolution([], {}, {})];
    }
    var resource, rest := wanted[0], wanted[1..];
    if resource in known {
      var remaining := ResolveResources(rest, catalog, scenario, known, active);
      return NotePresentAll(remaining, resource, scenario);
    }
    if resource in active {
      return [];
    }
    var producers := Enabled(catalog.producers, resource, scenario.enabled);
    EnabledMembers(catalog.producers, resource, scenario.enabled);
    resolutions := [];
    for i := 0 to |producers|
      invariant resolutions + ResolveVia(producers[i..], resource, rest, catalog, scenario, known, active)
             == ResolveVia(producers, resource, rest, catalog, scenario, known, active)
    {
      ViaStep(producers, i, resource, rest, catalog, scenario, known, active, resolutions);
      ActiveShrinks(catalog, active, resource);
      var dependencies := ResolveResources(producers[i].needs, catalog, scenario, known, active + {resource});
      resolutions := AppendContinuations(resolutions, dependencies, producers[i], rest, catalog, scenario, known, active);
    }
  }

  // ---------------------------------------------------------------- plans

  function WithIntent(realizations: seq<Realization>, goal: string): seq<Realization>
  {
    if realizations == [] then []
    else (if realizations[0].intent == goal then [realizations[0]] else []) + WithIntent(realizations[1..], goal)
  }

  function Alternatives(goals: seq<string>, catalog: Catalog): (pools: seq<seq<Realization>>)
  {
    seq(|goals|, i requires 0 <= i < |goals| => WithIntent(catalog.realizations, goals[i]))
  }

  function AllNeeds(selected: seq<Realization>): seq<string>
  {
    if selected == [] then [] else selected[0].needs + AllNeeds(selected[1..])
  }

  function RealizationCost(selected: seq<Realization>): int
  {
    if selected == [] then 0 else selected[0].cost + RealizationCost(selected[1..])
  }

  function ProducerCost(ps: seq<Producer>): int
  {
    if ps == [] then 0 else ps[0].cost + ProducerCost(ps[1..])
  }

  function MakePlan(goals: seq<string>, selected: seq<Realization>, r: Resolution): Plan
  {
    Plan(goals,
         seq(|selected|, i requires 0 <= i < |selected| => selected[i].name),
         seq(|r.producers|, i requires 0 <= i < |r.producers| => r.producers[i].name),
         SortNames(r.present), SortNames(r.produced),
         RealizationCost(selected) + ProducerCost(r.producers))
  }

  function PlansFor(goals: seq<string>, selected: seq<Realization>, resolutions: seq<Resolution>): seq<Plan>
  {
    if resolutions == [] then []
    else [MakePlan(goals, selected, resolutions[0])] + PlansFor(goals, selected, resolutions[1..])
  }

  function PlansOver(goals: seq<string>, catalog: Catalog, scenario: Scenario, selections: seq<seq<Realization>>): seq<Plan>
  {
    if selections == [] then []
    else
      PlansFor(goals, selections[0], Resolve(AllNeeds(selections[0]), catalog, scenario, scenario.present, {}))
      + PlansOver(goals, catalog, scenario, selections[1..])
  }

  /** Every plan, selection by selection and resolution by resolution. */
  function Plans(goals: seq<string>, catalog: Catalog, scenario: Scenario): seq<Plan>
  {
    PlansOver(goals, catalog, scenario, Product(Alternatives(goals, catalog)))
  }

  /** A goal without any realization empties the product, so the early return changes nothing. */
  lemma PlansForEmptyPool(goals: seq<string>, catalog: Catalog, scenario: Scenario)
    requires exists i :: 0 <= i < |goals| && Alternatives(goals, catalog)[i] == []
    ensures Plans(goals, catalog, scenario) == []
  {
    var pools := Alternatives(goals, catalog);
    if Product(pools) != [] {
      ProductMembers(pools, Product(pools)[0]);
    }
  }

  method AppendPlans(found: seq<Plan>, goals: seq<string>, selected: seq<Realization>, resolutions: seq<Resolution>)
    returns (plans: seq<Plan>)
    ensures plans == found + PlansFor(goals, selected, resolutions)
  {
    plans := found;
    for j := 0 to |resolutions|
      invariant plans + PlansFor(goals, selected, resolutions[j..]) == found + PlansFor(goals, selected, resolutions)
    {
      assert resolutions[j..][1..] == resolutions[j + 1..];
      plans := plans + [MakePlan(goals, selected, resolutions[j])];
    }
  }

  /** `discover_plans`. */
  method DiscoverPlans(goals: seq<string>, catalog: Catalog, scenario: Scenario) returns (plans: seq<Plan>)
    ensures plans == Plans(goals, catalog, scenario)
  {
    var pools := Alternatives(goals, catalog);
    if exists i :: 0 <= i < |pools| && pools[i] == [] {
      PlansForEmptyPool(goals, catalog, scenario);
      return [];
    }
    plans := [];
    var selections := Product(pools);
    for i := 0 to |selections|
      invariant plans + PlansOver(goals, catalog, scenario, selections[i..]) == Plans(goals, catalog, scenario)
    {
      var resolutions := ResolveResources(AllNeeds(selections[i]), catalog, scenario, scenario.present, {});
      PlansStep(goals, catalog, scenario, selections, i, plans);
      plans := AppendPlans(plans, goals, selections[i], resolutions);
    }
  }

  /** `choose_best`: the first plan of least cost. */
  function ChooseBest(plans: seq<Plan>): Option<Plan>
  {
    if plans == [] then None
    else
      match ChooseBest(plans[1..])
      case None => Some(plans[0])
      case Some(later) => if later.cost < plans[0].cost then Some(later) else Some(plans[0])
  }

  lemma PlansStep(goals: seq<string>, catalog: Catalog, scenario: Scenario, selections: seq<seq<Realization>>, i: nat, plans: seq<Plan>)
    requires i < |selections|
    ensures var resolutions := Resolve(AllNeeds(selections[i]), catalog, scenario, scenario.present, {});
            plans + PlansOver(goals, catalog, scenario, selections[i..])
            == (plans + PlansFor(goals, selections[i], resolutions)) + PlansOver(goals, catalog, scenario, selections[i + 1..])
  {
    assert selections[i..][0] == selections[i] && selections[i..][1..] == selections[i + 1..];
  }
}

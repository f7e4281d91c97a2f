/** What the resolver promises: every resolution is executable, and no executable set is missed. */
module PlannerTheorems {
  import opened Enumeration
  import opened Ordering
  import opened Planner

  // ---------------------------------------------------------------- vocabulary of the claims

  ghost predicate UniqueNames(ps: seq<Producer>)
  {
    forall p, q :: p in ps && q in ps && p.name == q.name ==> p == q
  }

  function Resources(ps: seq<Producer>): set<string>
  {
    set p | p in ps :: p.resource
  }

  ghost predicate OneProducerEach(ps: seq<Producer>)
  {
    forall i, j :: 0 <= i < j < |ps| ==> ps[i].resource != ps[j].resource
  }

  ghost predicate Covered(needs: seq<string>, known: set<string>)
  {
    forall need :: need in needs ==> need in known
  }

  /** The producers can be run in this order: each finds its requirements present or already produced. */
  ghost predicate Runs(order: seq<Producer>, known: set<string>)
  {
    order != [] ==> Covered(order[0].needs, known) && Runs(order[1..], known + {order[0].resource})
  }

  ghost predicate Usable(ps: seq<Producer>, catalog: Catalog, scenario: Scenario)
  {
    forall p :: p in ps ==> p in catalog.producers && p.name in scenario.enabled
  }

  ghost predicate Reordering(order: seq<Producer>, ps: seq<Producer>)
  {
    |order| == |ps| && forall p :: p in order <==> p in ps
  }

  ghost predicate Executable(ps: seq<Producer>, known: set<string>)
  {
    exists order :: Reordering(order, ps) && Runs(order, known)
  }

  /** The scenario's resources that the requested resources or a chosen producer ask for. */
  ghost predicate Wanted(resource: string, wanted: seq<string>, ps: seq<Producer>)
  {
    resource in wanted || exists p :: p in ps && resource in p.needs
  }

  ghost predicate SoundProducers(wanted: seq<string>, catalog: Catalog, scenario: Scenario,
                                 known: set<string>, active: set<string>, r: Resolution)
  {
    && Usable(r.producers, catalog, scenario)
    && SortedByName(r.producers)
    && OneProducerEach(r.producers)
    && r.produced == Resources(r.producers)
    && r.produced !! known
    && r.produced !! active
    && Covered(wanted, known + r.produced)
    && Executable(r.producers, known)
  }

  ghost predicate PresentExactly(wanted: seq<string>, scenario: Scenario, r: Resolution)
  {
    forall name :: name in r.present <==> name in scenario.present && Wanted(name, wanted, r.producers)
  }

  /** No producer is chosen for nothing. */
  ghost predicate AllAskedFor(wanted: seq<string>, r: Resolution)
  {
    forall p :: p in r.producers ==> Wanted(p.resource, wanted, r.producers)
  }

  ghost predicate Sound(wanted: seq<string>, catalog: Catalog, scenario: Scenario,
                        known: set<string>, active: set<string>, r: Resolution)
  {
    SoundProducers(wanted, catalog, scenario, known, active, r) && PresentExactly(wanted, scenario, r) && AllAskedFor(wanted, r)
  }

  // ---------------------------------------------------------------- canonical producer tuples

  /** With unique names `_unique_producers` is the sorted duplicate-free tuple of the same producers. */
  lemma UniqueProducersSpec(ps: seq<Producer>)
    requires UniqueNames(ps)
    ensures SortedByName(UniqueProducers(ps))
    ensures forall p :: p in UniqueProducers(ps) <==> p in ps
  {
    UniqueProducersExactly(ps);
    forall p | p in ps ensures LastNamed(ps, p) {
      UniqueIsLast(ps, p);
    }
  }

  lemma {:induction false} UniqueIsLast(ps: seq<Producer>, p: Producer)
    requires UniqueNames(ps) && p in ps
    ensures LastNamed(ps, p)
  {
    var init, last := ps[..|ps| - 1], ps[|ps| - 1];
    assert ps == init + [last];
    assert last in ps;
    LastNamedMore(init, last, p);
    if p != last {
      UniqueIsLast(init, p);
    }
  }

  lemma {:induction false} DistinctCount(ps: seq<Producer>)
    requires OneProducerEach(ps)
    ensures |set p | p in ps| == |ps|
  {
    if ps != [] {
      DistinctCount(ps[1..]);
      assert (set p | p in ps) == {ps[0]} + set p | p in ps[1..];
    }
  }

  /** Tuples of pairwise different producers with the same members have the same length. */
  lemma DistinctLength(a: seq<Producer>, b: seq<Producer>)
    requires OneProducerEach(a) && OneProducerEach(b)
    requires forall p :: p in a <==> p in b
    ensures |a| == |b|
  {
    DistinctCount(a);
    DistinctCount(b);
    assert (set p | p in a) == set p | p in b;
  }

  // ---------------------------------------------------------------- running producers

  lemma KnownAfterHead(ps: seq<Producer>, known: set<string>)
    requires ps != []
    ensures known + {ps[0].resource} + Resources(ps[1..]) == known + Resources(ps)
  {
    assert forall p :: p in ps <==> p == ps[0] || p in ps[1..];
  }

  lemma RunsFirst(p: Producer, rest: seq<Producer>, known: set<string>)
    requires Covered(p.needs, known) && Runs(rest, known + {p.resource})
    ensures Runs([p] + rest, known)
  {
    assert ([p] + rest)[1..] == rest;
  }

  lemma {:induction false} RunsConcat(first: seq<Producer>, second: seq<Producer>, known: set<string>)
    requires Runs(first, known)
    requires Runs(second, known + Resources(first))
    ensures Runs(first + second, known)
  {
    if first == [] {
      assert known + Resources(first) == known;
      assert first + second == second;
    } else {
      KnownAfterHead(first, known);
      RunsConcat(first[1..], second, known + {first[0].resource});
      RunsFirst(first[0], first[1..] + second, known);
      assert first + second == [first[0]] + (first[1..] + second);
    }
  }

  lemma {:induction false} RunsPrefix(order: seq<Producer>, n: nat, known: set<string>)
    requires n <= |order| && Runs(order, known)
    ensures Runs(order[..n], known)
  {
    if n > 0 {
      RunsPrefix(order[1..], n - 1, known + {order[0].resource});
      assert order[..n][1..] == order[1..][..n - 1];
    }
  }

  /** In a run, the requirements of step `i` come from the start or from earlier steps. */
  lemma {:induction false} RunsAt(order: seq<Producer>, i: nat, known: set<string>)
    requires i < |order| && Runs(order, known)
    ensures Covered(order[i].needs, known + Resources(order[..i]))
  {
    if i > 0 {
      RunsAt(order[1..], i - 1, known + {order[0].resource});
      assert order[..i] == [order[0]] + order[1..][..i - 1];
    }
  }

  // ---------------------------------------------------------------- reading the recursion

  lemma NotePresentAllMembers(resolutions: seq<Resolution>, resource: string, scenario: Scenario)
    ensures forall r :: r in NotePresentAll(resolutions, resource, scenario)
                        <==> exists s :: s in resolutions && r == NotePresent(s, resource, scenario)
  {
  }

  lemma JoinAllMembers(dependency: Resolution, p: Producer, remaining: seq<Resolution>)
    ensures forall r :: r in JoinAll(dependency, p, remaining)
                        <==> exists s :: s in remaining && r == Join(dependency, p, s)
  {
  }

  /** `r` arises from producing `resource` by `p`, resolving first its requirements and then the rest. */
  ghost predicate Arises(r: Resolution, p: Producer, dependency: Resolution, remaining: Resolution,
                         resource: string, rest: seq<string>, catalog: Catalog, scenario: Scenario,
                         known: set<string>, active: set<string>)
  {
    && p in catalog.producers && p.resource == resource && p.name in scenario.enabled
    && dependency in Resolve(p.needs, catalog, scenario, known, active + {resource})
    && remaining in Resolve(rest, catalog, scenario, known + dependency.produced + {resource}, active)
    && r == Join(dependency, p, remaining)
  }

  lemma {:induction false} ContinueAllMembers(dependencies: seq<Resolution>, p: Producer, rest: seq<string>, catalog: Catalog,
                           scenario: Scenario, known: set<string>, active: set<string>, r: Resolution)
    ensures r in ContinueAll(dependencies, p, rest, catalog, scenario, known, active)
       <==> exists d, s :: d in dependencies
                           && s in Resolve(rest, catalog, scenario, known + d.produced + {p.resource}, active)
                           && r == Join(d, p, s)
  {
    if dependencies != [] {
      var d := dependencies[0];
      JoinAllMembers(d, p, Resolve(rest, catalog, scenario, known + d.produced + {p.resource}, active));
      ContinueAllMembers(dependencies[1..], p, rest, catalog, scenario, known, active, r);
      assert forall e :: e in dependencies <==> e == d || e in dependencies[1..];
    }
  }

  lemma {:induction false} ResolveViaMembers(producers: seq<Producer>, resource: string, rest: seq<string>, catalog: Catalog,
                          scenario: Scenario, known: set<string>, active: set<string>, r: Resolution)
    requires resource !in active
    requires forall p :: p in producers ==> p in catalog.producers && p.resource == resource && p.name in scenario.enabled
    ensures r in ResolveVia(producers, resource, rest, catalog, scenario, known, active)
       <==> exists p, d, s :: p in producers && Arises(r, p, d, s, resource, rest, catalog, scenario, known, active)
  {
    if producers != [] {
      var p := producers[0];
      var dependencies := Resolve(p.needs, catalog, scenario, known, active + {resource});
      ContinueAllMembers(dependencies, p, rest, catalog, scenario, known, active, r);
      ResolveViaMembers(producers[1..], resource, rest, catalog, scenario, known, active, r);
      assert forall q :: q in producers <==> q == p || q in producers[1..];
      if r in ContinueAll(dependencies, p, rest, catalog, scenario, known, active) {
        var d, s :| d in dependencies
                    && s in Resolve(rest, catalog, scenario, known + d.produced + {p.resource}, active)
                    && r == Join(d, p, s);
        assert Arises(r, p, d, s, resource, rest, catalog, scenario, known, active);
      }
    }
  }

  /** The membership equation of the resolver for a resource that has to be produced. */
  lemma ResolveMembers(wanted: seq<string>, catalog: Catalog, scenario: Scenario,
                       known: set<string>, active: set<string>, r: Resolution)
    requires wanted != [] && wanted[0] !in known && wanted[0] !in active
    ensures r in Resolve(wanted, catalog, scenario, known, active)
       <==> exists p, d, s :: Arises(r, p, d, s, wanted[0], wanted[1..], catalog, scenario, known, active)
  {
    var producers := Enabled(catalog.producers, wanted[0], scenario.enabled);
    EnabledMembers(catalog.producers, wanted[0], scenario.enabled);
    ResolveViaMembers(producers, wanted[0], wanted[1..], catalog, scenario, known, active, r);
    if p, d, s :| Arises(r, p, d, s, wanted[0], wanted[1..], catalog, scenario, known, active) {
      assert p in producers;
    }
  }

  // ---------------------------------------------------------------- soundness

  lemma OneProducerConcat(a: seq<Producer>, b: seq<Producer>)
    requires OneProducerEach(a) && OneProducerEach(b) && Resources(a) !! Resources(b)
    ensures OneProducerEach(a + b) && Resources(a + b) == Resources(a) + Resources(b)
  {
    assert forall i :: 0 <= i < |a| ==> a[i].resource in Resources(a);
    assert forall i :: 0 <= i < |b| ==> b[i].resource in Resources(b);
  }

  lemma CanonicalTuple(ps: seq<Producer>)
    requires OneProducerEach(ps) && UniqueNames(ps)
    ensures var unique := UniqueProducers(ps);
            SortedByName(unique) && OneProducerEach(unique) && Resources(unique) == Resources(ps)
            && Reordering(ps, unique)
  {
    var unique := UniqueProducers(ps);
    UniqueProducersSpec(ps);
    forall i, j | 0 <= i < j < |unique| ensures unique[i].resource != unique[j].resource {
      BelowTotal(unique[i].name, unique[j].name);
      assert unique[i] in ps && unique[j] in ps;
    }
    DistinctLength(ps, unique);
  }

  lemma JoinExecutable(p: Producer, d: seq<Producer>, s: seq<Producer>, all: seq<Producer>, known: set<string>)
    requires Executable(d, known) && Executable(s, known + Resources(d) + {p.resource})
    requires Covered(p.needs, known + Resources(d))
    requires Reordering(d + [p] + s, all)
    ensures Executable(all, known)
  {
    var dOrder :| Reordering(dOrder, d) && Runs(dOrder, known);
    var sOrder :| Reordering(sOrder, s) && Runs(sOrder, known + Resources(d) + {p.resource});
    assert Resources(dOrder) == Resources(d);
    assert Resources([p]) == {p.resource};
    assert known + Resources(d) + {p.resource} == known + Resources(d) + Resources([p]);
    RunsConcat([p], sOrder, known + Resources(d));
    RunsConcat(dOrder, [p] + sOrder, known);
    assert Reordering(dOrder + ([p] + sOrder), all);
  }

  /** The producers of a join: usable, canonical, one for each produced resource. */
  lemma JoinProducers(p: Producer, d: Resolution, s: Resolution, catalog: Catalog, scenario: Scenario)
    requires UniqueNames(catalog.producers)
    requires p in catalog.producers && p.name in scenario.enabled
    requires Usable(d.producers, catalog, scenario) && Usable(s.producers, catalog, scenario)
    requires OneProducerEach(d.producers) && OneProducerEach(s.producers)
    requires p.resource !in Resources(d.producers) && p.resource !in Resources(s.producers)
    requires Resources(d.producers) !! Resources(s.producers)
    ensures var r := Join(d, p, s).producers;
            && Usable(r, catalog, scenario) && SortedByName(r) && OneProducerEach(r)
            && Resources(r) == Resources(d.producers) + Resources(s.producers) + {p.resource}
            && Reordering(d.producers + [p] + s.producers, r)
  {
    assert Resources([p]) == {p.resource};
    OneProducerConcat(d.producers, [p]);
    OneProducerConcat(d.producers + [p], s.producers);
    var all := d.producers + [p] + s.producers;
    forall q | q in all ensures q in catalog.producers && q.name in scenario.enabled {
      assert q in d.producers || q == p || q in s.producers;
    }
    CanonicalTuple(all);
  }

  lemma JoinRuns(p: Producer, d: Resolution, s: Resolution, wanted: seq<string>, r: Resolution, known: set<string>)
    requires wanted != [] && p.resource == wanted[0]
    requires d.produced == Resources(d.producers)
    requires Executable(d.producers, known) && Covered(p.needs, known + d.produced)
    requires Executable(s.producers, known + d.produced + {wanted[0]})
    requires Covered(wanted[1..], known + d.produced + {wanted[0]} + s.produced)
    requires r.produced == d.produced + s.produced + {wanted[0]}
    requires Reordering(d.producers + [p] + s.producers, r.producers)
    ensures Executable(r.producers, known) && Covered(wanted, known + r.produced)
    ensures forall q :: q in r.producers <==> q in d.producers || q == p || q in s.producers
  {
    assert known + d.produced + {wanted[0]} == known + Resources(d.producers) + {p.resource};
    JoinExecutable(p, d.producers, s.producers, r.producers, known);
    assert wanted == [wanted[0]] + wanted[1..];
    assert forall q :: q in d.producers + [p] + s.producers <==> q in r.producers;
  }

  lemma JoinSound(p: Producer, d: Resolution, s: Resolution, wanted: seq<string>,
                  catalog: Catalog, scenario: Scenario, known: set<string>, active: set<string>)
    requires UniqueNames(catalog.producers)
    requires wanted != [] && wanted[0] !in known && wanted[0] !in active
    requires p in catalog.producers && p.resource == wanted[0] && p.name in scenario.enabled
    requires SoundProducers(p.needs, catalog, scenario, known, active + {wanted[0]}, d)
    requires SoundProducers(wanted[1..], catalog, scenario, known + d.produced + {wanted[0]}, active, s)
    ensures SoundProducers(wanted, catalog, scenario, known, active, Join(d, p, s))
    ensures forall q :: q in Join(d, p, s).producers <==> q in d.producers || q == p || q in s.producers
  {
    JoinProducers(p, d, s, catalog, scenario);
    JoinRuns(p, d, s, wanted, Join(d, p, s), known);
  }

  lemma JoinPresent(p: Producer, d: Resolution, s: Resolution, wanted: seq<string>, scenario: Scenario)
    requires wanted != [] && wanted[0] !in scenario.present
    requires forall q :: q in Join(d, p, s).producers <==> q in d.producers || q == p || q in s.producers
    requires PresentExactly(p.needs, scenario, d) && PresentExactly(wanted[1..], scenario, s)
    ensures PresentExactly(wanted, scenario, Join(d, p, s))
  {
    var r := Join(d, p, s);
    assert wanted == [wanted[0]] + wanted[1..];
    forall name | name in scenario.present
      ensures Wanted(name, wanted, r.producers)
         <==> Wanted(name, p.needs, d.producers) || Wanted(name, wanted[1..], s.producers)
    {
      if Wanted(name, wanted, r.producers) && name !in wanted {
        var q :| q in r.producers && name in q.needs;
      }
      assert p in r.producers;
    }
  }

  lemma JoinAskedFor(p: Producer, d: Resolution, s: Resolution, wanted: seq<string>)
    requires wanted != [] && p.resource == wanted[0]
    requires forall q :: q in Join(d, p, s).producers <==> q in d.producers || q == p || q in s.producers
    requires AllAskedFor(p.needs, d) && AllAskedFor(wanted[1..], s)
    ensures AllAskedFor(wanted, Join(d, p, s))
  {
    var r := Join(d, p, s);
    assert wanted == [wanted[0]] + wanted[1..];
    forall q | q in r.producers ensures Wanted(q.resource, wanted, r.producers) {
      if q in d.producers {
        assert Wanted(q.resource, p.needs, d.producers) && p in r.producers;
      } else if q != p {
        assert Wanted(q.resource, wanted[1..], s.producers);
      }
    }
  }

  lemma EmptySound(catalog: Catalog, scenario: Scenario, known: set<string>, active: set<string>)
    ensures Sound([], catalog, scenario, known, active, Resolution([], {}, {}))
  {
    var none: seq<Producer> := [];
    assert Reordering(none, none) && Runs(none, known);
  }

  lemma KnownSound(wanted: seq<string>, catalog: Catalog, scenario: Scenario,
                   known: set<string>, active: set<string>, s: Resolution)
    requires wanted != [] && wanted[0] in known
    requires Sound(wanted[1..], catalog, scenario, known, active, s)
    ensures Sound(wanted, catalog, scenario, known, active, NotePresent(s, wanted[0], scenario))
  {
    assert wanted == [wanted[0]] + wanted[1..];
    assert forall name :: Wanted(name, wanted, s.producers) <==> name == wanted[0] || Wanted(name, wanted[1..], s.producers);
  }

  /** Every resolution is sound, whatever the resources already known or in progress. */
  lemma {:induction false} ResolveSound(wanted: seq<string>, catalog: Catalog, scenario: Scenario,
                                        known: set<string>, active: set<string>, r: Resolution)
    requires UniqueNames(catalog.producers) && scenario.present <= known
    requires r in Resolve(wanted, catalog, scenario, known, active)
    ensures Sound(wanted, catalog, scenario, known, active, r)
    decreases |Producible(catalog) - active|, |wanted|
  {
    if wanted == [] {
      EmptySound(catalog, scenario, known, active);
    } else if wanted[0] in known {
      NotePresentAllMembers(Resolve(wanted[1..], catalog, scenario, known, active), wanted[0], scenario);
      var s :| s in Resolve(wanted[1..], catalog, scenario, known, active) && r == NotePresent(s, wanted[0], scenario);
      ResolveSound(wanted[1..], catalog, scenario, known, active, s);
      KnownSound(wanted, catalog, scenario, known, active, s);
    } else if wanted[0] !in active {
      ResolveMembers(wanted, catalog, scenario, known, active, r);
      var p, d, s :| Arises(r, p, d, s, wanted[0], wanted[1..], catalog, scenario, known, active);
      ActiveShrinks(catalog, active, wanted[0]);
      ResolveSound(p.needs, catalog, scenario, known, active + {wanted[0]}, d);
      ResolveSound(wanted[1..], catalog, scenario, known + d.produced + {wanted[0]}, active, s);
      JoinSound(p, d, s, wanted, catalog, scenario, known, active);
      JoinPresent(p, d, s, wanted, scenario);
      JoinAskedFor(p, d, s, wanted);
    }
  }

  // ---------------------------------------------------------------- completeness

  lemma ResolveUsable(wanted: seq<string>, catalog: Catalog, scenario: Scenario,
                      known: set<string>, active: set<string>, r: Resolution)
    requires UniqueNames(catalog.producers) && scenario.present <= known
    requires r in Resolve(wanted, catalog, scenario, known, active)
    ensures forall p :: p in r.producers ==> p in catalog.producers
  {
    ResolveSound(wanted, catalog, scenario, known, active, r);
  }

  lemma FirstProducing(order: seq<Producer>, resource: string) returns (i: nat)
    requires resource in Resources(order)
    ensures i < |order| && order[i].resource == resource && resource !in Resources(order[..i])
  {
    if order[0].resource == resource {
      i := 0;
    } else {
      assert order == [order[0]] + order[1..];
      i := FirstProducing(order[1..], resource);
      assert order[..i + 1] == [order[0]] + order[1..][..i];
      i := i + 1;
    }
  }

  /**
   * Whatever can be obtained by running `order`, the resolver obtains from producers of `order` alone.
   * The first producer of a wanted resource is followed; what it needs comes from the steps before it,
   * which do not produce the resource, so a resource in progress is never asked for again.
   */
  lemma {:induction false} ResolveComplete(wanted: seq<string>, catalog: Catalog, scenario: Scenario, start: set<string>,
                                           known: set<string>, active: set<string>, order: seq<Producer>)
    returns (r: Resolution)
    requires UniqueNames(catalog.producers) && scenario.present <= known
    requires Usable(order, catalog, scenario) && Runs(order, start) && start <= known
    requires Covered(wanted, known + Resources(order))
    requires Resources(order) !! active
    ensures r in Resolve(wanted, catalog, scenario, known, active)
    ensures forall p :: p in r.producers ==> p in order
    decreases |order|, |wanted|
  {
    if wanted == [] {
      r := Resolution([], {}, {});
    } else if wanted[0] in known {
      var s := ResolveComplete(wanted[1..], catalog, scenario, start, known, active, order);
      r := NotePresent(s, wanted[0], scenario);
      NotePresentAllMembers(Resolve(wanted[1..], catalog, scenario, known, active), wanted[0], scenario);
    } else {
      assert wanted[0] in wanted;
      var i := FirstProducing(order, wanted[0]);
      var p := order[i];
      RunsPrefix(order, i, start);
      RunsAt(order, i, start);
      assert Resources(order[..i]) <= Resources(order);
      var d := ResolveComplete(p.needs, catalog, scenario, start, known, active + {wanted[0]}, order[..i]);
      var known' := known + d.produced + {wanted[0]};
      assert Covered(wanted[1..], known' + Resources(order)) by {
        assert forall need :: need in wanted[1..] ==> need in wanted;
      }
      var s := ResolveComplete(wanted[1..], catalog, scenario, start, known', active, order);
      r := Join(d, p, s);
      assert Arises(r, p, d, s, wanted[0], wanted[1..], catalog, scenario, known, active);
      ResolveMembers(wanted, catalog, scenario, known, active, r);
      ResolveUsable(p.needs, catalog, scenario, known, active + {wanted[0]}, d);
      ResolveUsable(wanted[1..], catalog, scenario, known', active, s);
      forall q | q in d.producers + [p] + s.producers ensures q in catalog.producers && q in order {
        assert q in d.producers || q == p || q in s.producers;
      }
      UniqueProducersSpec(d.producers + [p] + s.producers);
    }
  }

  // ---------------------------------------------------------------- plans

  /** One realization per goal, taken from the catalogue. */
  ghost predicate Choice(goals: seq<string>, catalog: Catalog, selected: seq<Realization>)
  {
    && |selected| == |goals|
    && forall i :: 0 <= i < |goals| ==> selected[i] in catalog.realizations && selected[i].intent == goals[i]
  }

  /** A way to serve the goals that owes nothing to the search: realizations, and enabled producers in
      an order in which they can be run from the present resources and which covers what is needed. */
  ghost predicate Serves(goals: seq<string>, catalog: Catalog, scenario: Scenario,
                         selected: seq<Realization>, order: seq<Producer>)
  {
    && Choice(goals, catalog, selected)
    && Usable(order, catalog, scenario)
    && Runs(order, scenario.present)
    && forall r, need :: r in selected && need in r.needs ==> need in scenario.present + Resources(order)
  }

  /** A selected realization or a producer requires the resource. */
  ghost predicate AskedFor(resource: string, selected: seq<Realization>, order: seq<Producer>)
  {
    (exists r :: r in selected && resource in r.needs) || exists p :: p in order && resource in p.needs
  }

  /** Every field of a plan, read off the realizations and producers it stands for. */
  ghost predicate Describes(plan: Plan, goals: seq<string>, scenario: Scenario, selected: seq<Realization>, order: seq<Producer>)
  {
    && plan.goals == goals
    && |plan.realizations| == |selected| && (forall i :: 0 <= i < |selected| ==> plan.realizations[i] == selected[i].name)
    && Ascending(plan.producers) && (forall name :: name in plan.producers <==> exists p :: p in order && p.name == name)
    && Ascending(plan.present) && (forall x :: x in plan.present <==> x in scenario.present && AskedFor(x, selected, order))
    && Ascending(plan.produced) && (forall x :: x in plan.produced <==> exists p :: p in order && p.resource == x)
    && plan.cost == TotalCost(selected, order)
  }

  lemma {:induction false} AllNeedsMembers(selected: seq<Realization>, need: string)
    ensures need in AllNeeds(selected) <==> exists r :: r in selected && need in r.needs
  {
    if selected != [] {
      AllNeedsMembers(selected[1..], need);
      assert forall r :: r in selected <==> r == selected[0] || r in selected[1..];
    }
  }

  lemma WantedIsAskedFor(resource: string, selected: seq<Realization>, order: seq<Producer>)
    ensures Wanted(resource, AllNeeds(selected), order) <==> AskedFor(resource, selected, order)
  {
    AllNeedsMembers(selected, resource);
  }

  lemma CoveredNeeds(selected: seq<Realization>, known: set<string>)
    ensures Covered(AllNeeds(selected), known) <==> forall r, need :: r in selected && need in r.needs ==> need in known
  {
    forall need ensures need in AllNeeds(selected) <==> exists r :: r in selected && need in r.needs {
      AllNeedsMembers(selected, need);
    }
    if !Covered(AllNeeds(selected), known) {
      var need :| need in AllNeeds(selected) && need !in known;
      var r :| r in selected && need in r.needs;
    }
  }

  /** The costs of a selection and of a tuple of producers are the sums of their members' costs. */
  lemma {:induction false} CostsAdd(selected: seq<Realization>, r: Realization, order: seq<Producer>, p: Producer)
    ensures RealizationCost([]) == ProducerCost([]) == 0
    ensures RealizationCost(selected + [r]) == RealizationCost(selected) + r.cost
    ensures ProducerCost(order + [p]) == ProducerCost(order) + p.cost
    decreases |selected| + |order|
  {
    if selected != [] {
      CostsAdd(selected[1..], r, [], p);
      assert (selected + [r])[1..] == selected[1..] + [r];
    }
    if order != [] {
      CostsAdd([], r, order[1..], p);
      assert (order + [p])[1..] == order[1..] + [p];
    }
  }

  function TotalCost(selected: seq<Realization>, order: seq<Producer>): int
  {
    RealizationCost(selected) + ProducerCost(order)
  }

  lemma WithIntentMembers(realizations: seq<Realization>, goal: string)
    ensures forall r :: r in WithIntent(realizations, goal) <==> r in realizations && r.intent == goal
  {
  }

  lemma SelectionsAreChoices(goals: seq<string>, catalog: Catalog, selected: seq<Realization>)
    ensures selected in Product(Alternatives(goals, catalog)) <==> Choice(goals, catalog, selected)
  {
    var pools := Alternatives(goals, catalog);
    ProductMembers(pools, selected);
    forall i | 0 <= i < |goals|
      ensures forall r :: r in pools[i] <==> r in catalog.realizations && r.intent == goals[i]
    {
      WithIntentMembers(catalog.realizations, goals[i]);
    }
  }

  lemma PlansForMembers(goals: seq<string>, selected: seq<Realization>, resolutions: seq<Resolution>)
    ensures forall plan :: plan in PlansFor(goals, selected, resolutions)
                           <==> exists r :: r in resolutions && plan == MakePlan(goals, selected, r)
  {
  }

  ghost predicate PlanOf(plan: Plan, goals: seq<string>, catalog: Catalog, scenario: Scenario,
                         selected: seq<Realization>, r: Resolution)
  {
    && r in Resolve(AllNeeds(selected), catalog, scenario, scenario.present, {})
    && plan == MakePlan(goals, selected, r)
  }

  lemma {:induction false} PlansOverMembers(goals: seq<string>, catalog: Catalog, scenario: Scenario,
                                            selections: seq<seq<Realization>>, plan: Plan)
    ensures plan in PlansOver(goals, catalog, scenario, selections)
       <==> exists selected, r :: selected in selections && PlanOf(plan, goals, catalog, scenario, selected, r)
  {
    if selections != [] {
      var resolutions := Resolve(AllNeeds(selections[0]), catalog, scenario, scenario.present, {});
      PlansForMembers(goals, selections[0], resolutions);
      PlansOverMembers(goals, catalog, scenario, selections[1..], plan);
      assert forall s :: s in selections <==> s == selections[0] || s in selections[1..];
      if plan in PlansFor(goals, selections[0], resolutions) {
        var r :| r in resolutions && plan == MakePlan(goals, selections[0], r);
        assert PlanOf(plan, goals, catalog, scenario, selections[0], r);
      }
    }
  }

  /** Every plan comes from a choice of realizations and a sound resolution of their requirements. */
  lemma PlanArises(goals: seq<string>, catalog: Catalog, scenario: Scenario, plan: Plan)
    returns (selected: seq<Realization>, r: Resolution)
    requires UniqueNames(catalog.producers)
    requires plan in Plans(goals, catalog, scenario)
    ensures Choice(goals, catalog, selected) && plan == MakePlan(goals, selected, r)
    ensures Sound(AllNeeds(selected), catalog, scenario, scenario.present, {}, r)
  {
    PlansOverMembers(goals, catalog, scenario, Product(Alternatives(goals, catalog)), plan);
    selected, r :| selected in Product(Alternatives(goals, catalog))
                   && PlanOf(plan, goals, catalog, scenario, selected, r);
    SelectionsAreChoices(goals, catalog, selected);
    ResolveSound(AllNeeds(selected), catalog, scenario, scenario.present, {}, r);
  }

  lemma NamesAscend(ps: seq<Producer>, names: seq<string>)
    requires SortedByName(ps) && |names| == |ps| && forall i :: 0 <= i < |ps| ==> names[i] == ps[i].name
    ensures Ascending(names) && forall name :: name in names <==> exists p :: p in ps && p.name == name
  {
    forall p | p in ps ensures p.name in names {
      var i :| 0 <= i < |ps| && ps[i] == p;
      assert names[i] == p.name;
    }
  }

  /** The plan made of a sound resolution describes any order in which its producers can be run. */
  lemma MadeDescribes(goals: seq<string>, scenario: Scenario, selected: seq<Realization>, r: Resolution, order: seq<Producer>)
    requires SortedByName(r.producers) && OneProducerEach(r.producers) && r.produced == Resources(r.producers)
    requires PresentExactly(AllNeeds(selected), scenario, r) && Reordering(order, r.producers)
    ensures OneProducerEach(order) && Resources(order) == Resources(r.producers)
    ensures Describes(MakePlan(goals, selected, r), goals, scenario, selected, order)
  {
    var plan := MakePlan(goals, selected, r);
    ReorderingKeepsDistinct(order, r.producers);
    CostOfPermutation(order, r.producers);
    NamesAscend(r.producers, plan.producers);
    forall x ensures x in plan.present <==> x in scenario.present && AskedFor(x, selected, order) {
      WantedIsAskedFor(x, selected, order);
      assert Wanted(x, AllNeeds(selected), r.producers) <==> Wanted(x, AllNeeds(selected), order);
    }
  }

  lemma ResolutionServes(goals: seq<string>, catalog: Catalog, scenario: Scenario, selected: seq<Realization>, r: Resolution)
    returns (order: seq<Producer>)
    requires Choice(goals, catalog, selected)
    requires Sound(AllNeeds(selected), catalog, scenario, scenario.present, {}, r)
    ensures Reordering(order, r.producers) && OneProducerEach(order)
    ensures Serves(goals, catalog, scenario, selected, order)
    ensures Describes(MakePlan(goals, selected, r), goals, scenario, selected, order)
  {
    order :| Reordering(order, r.producers) && Runs(order, scenario.present);
    MadeDescribes(goals, scenario, selected, r, order);
    CoveredNeeds(selected, scenario.present + r.produced);
  }

  /**
   * Soundness of every plan: it describes one catalogue realization per goal and enabled producers that can be run
   * in some order and cover all requirements, each producing a different resource that was not present and that
   * something in the plan asks for.
   */
  lemma PlansSound(goals: seq<string>, catalog: Catalog, scenario: Scenario, plan: Plan)
    returns (selected: seq<Realization>, order: seq<Producer>)
    requires UniqueNames(catalog.producers)
    requires plan in Plans(goals, catalog, scenario)
    ensures Serves(goals, catalog, scenario, selected, order) && Describes(plan, goals, scenario, selected, order)
    ensures OneProducerEach(order)
    ensures forall p :: p in order ==> p.resource !in scenario.present && AskedFor(p.resource, selected, order)
  {
    var r;
    selected, r := PlanArises(goals, catalog, scenario, plan);
    order := ResolutionServes(goals, catalog, scenario, selected, r);
    forall p | p in order ensures p.resource !in scenario.present && AskedFor(p.resource, selected, order) {
      assert p.resource in r.produced;
      WantedIsAskedFor(p.resource, selected, order);
      assert Wanted(p.resource, AllNeeds(selected), r.producers) <==> Wanted(p.resource, AllNeeds(selected), order);
    }
  }

  lemma {:induction false} CostOfPermutation(a: seq<Producer>, b: seq<Producer>)
    requires Reordering(a, b) && OneProducerEach(a) && OneProducerEach(b)
    ensures ProducerCost(a) == ProducerCost(b)
  {
    if a != [] {
      assert a[0] in b;
      var i :| 0 <= i < |b| && b[i] == a[0];
      var b' := b[..i] + b[i + 1..];
      CostWithout(b, i);
      forall p ensures p in a[1..] <==> p in b' {
        assert p in a <==> p == a[0] || p in a[1..];
        assert p in b <==> p == b[i] || p in b';
      }
      CostOfPermutation(a[1..], b');
    }
  }

  lemma {:induction false} CostWithout(b: seq<Producer>, i: nat)
    requires i < |b|
    ensures ProducerCost(b) == b[i].cost + ProducerCost(b[..i] + b[i + 1..])
  {
    if i == 0 {
      assert b[..0] + b[1..] == b[1..];
    } else {
      CostWithout(b[1..], i - 1);
      var rest, tail := b[..i] + b[i + 1..], b[1..][..i - 1] + b[1..][i..];
      assert rest[0] == b[0] && rest[1..] == tail;
    }
  }

  lemma {:induction false} ReorderingKeepsDistinct(order: seq<Producer>, ps: seq<Producer>)
    requires Reordering(order, ps) && OneProducerEach(ps)
    ensures OneProducerEach(order)
  {
    var members := set p | p in order;
    DistinctCount(ps);
    assert members == set p | p in ps;
    forall i, j | 0 <= i < j < |order| ensures order[i].resource != order[j].resource {
      if order[i].resource == order[j].resource {
        assert order[i] in ps && order[j] in ps;
        var shorter := order[..j] + order[j + 1..];
        assert forall p :: p in order ==> p in shorter;
        assert members == set p | p in shorter;
        MemberCount(shorter);
      }
    }
  }

  lemma {:induction false} MemberCount(ps: seq<Producer>)
    ensures |set p | p in ps| <= |ps|
  {
    if ps != [] {
      MemberCount(ps[1..]);
      assert (set p | p in ps) == {ps[0]} + set p | p in ps[1..];
    }
  }

  /** Dropping producers from a tuple never makes it dearer when none has a negative cost. */
  lemma {:induction false} CostOfSubset(a: seq<Producer>, b: seq<Producer>)
    requires OneProducerEach(a)
    requires forall p :: p in a ==> p in b
    requires forall p :: p in b ==> p.cost >= 0
    ensures ProducerCost(a) <= ProducerCost(b)
  {
    if a == [] {
      CostNonNegative(b);
    } else {
      assert a[0] in b;
      var i :| 0 <= i < |b| && b[i] == a[0];
      CostWithout(b, i);
      forall p | p in a[1..] ensures p in b[..i] + b[i + 1..] {
        assert p in a && p != a[0];
      }
      CostOfSubset(a[1..], b[..i] + b[i + 1..]);
    }
  }

  lemma {:induction false} CostNonNegative(b: seq<Producer>)
    requires forall p :: p in b ==> p.cost >= 0
    ensures ProducerCost(b) >= 0
  {
    if b != [] {
      CostNonNegative(b[1..]);
    }
  }

  /** Whatever serves the goals holds the producers of some sound resolution, and the plan made of it is listed. */
  lemma PlanFound(goals: seq<string>, catalog: Catalog, scenario: Scenario, selected: seq<Realization>, order: seq<Producer>)
    returns (r: Resolution)
    requires UniqueNames(catalog.producers)
    requires Serves(goals, catalog, scenario, selected, order)
    ensures MakePlan(goals, selected, r) in Plans(goals, catalog, scenario)
    ensures Sound(AllNeeds(selected), catalog, scenario, scenario.present, {}, r)
    ensures forall p :: p in r.producers ==> p in order
  {
    CoveredNeeds(selected, scenario.present + Resources(order));
    r := ResolveComplete(AllNeeds(selected), catalog, scenario, scenario.present, scenario.present, {}, order);
    ResolveSound(AllNeeds(selected), catalog, scenario, scenario.present, {}, r);
    SelectionsAreChoices(goals, catalog, selected);
    assert PlanOf(MakePlan(goals, selected, r), goals, catalog, scenario, selected, r);
    PlansOverMembers(goals, catalog, scenario, Product(Alternatives(goals, catalog)), MakePlan(goals, selected, r));
  }

  lemma CostsNoMore(selected: seq<Realization>, part: seq<Producer>, order: seq<Producer>)
    requires OneProducerEach(part) && forall p :: p in part ==> p in order
    ensures (forall p :: p in order ==> p.cost >= 0) ==> TotalCost(selected, part) <= TotalCost(selected, order)
  {
    if forall p :: p in order ==> p.cost >= 0 {
      CostOfSubset(part, order);
    }
  }

  /** Nothing that serves the goals is missed: some plan describes the same realizations with no other producers, and
      without negative costs it costs no more. */
  lemma PlansComplete(goals: seq<string>, catalog: Catalog, scenario: Scenario,
                      selected: seq<Realization>, order: seq<Producer>)
    returns (plan: Plan, part: seq<Producer>)
    requires UniqueNames(catalog.producers)
    requires Serves(goals, catalog, scenario, selected, order)
    ensures plan in Plans(goals, catalog, scenario)
    ensures Serves(goals, catalog, scenario, selected, part) && Describes(plan, goals, scenario, selected, part)
    ensures OneProducerEach(part) && forall p :: p in part ==> p in order
    ensures (forall p :: p in order ==> p.cost >= 0) ==> plan.cost <= TotalCost(selected, order)
  {
    var r := PlanFound(goals, catalog, scenario, selected, order);
    plan := MakePlan(goals, selected, r);
    part := ResolutionServes(goals, catalog, scenario, selected, r);
    CostsNoMore(selected, part, order);
  }

  /** A plan is returned exactly when the goals can be served at all. */
  lemma PlanExistsExactly(goals: seq<string>, catalog: Catalog, scenario: Scenario)
    requires UniqueNames(catalog.producers)
    ensures ChooseBest(Plans(goals, catalog, scenario)).Some?
       <==> exists selected, order :: Serves(goals, catalog, scenario, selected, order)
  {
    var plans := Plans(goals, catalog, scenario);
    if plans != [] {
      var selected, order := PlansSound(goals, catalog, scenario, plans[0]);
    }
    if selected, order :| Serves(goals, catalog, scenario, selected, order) {
      var plan, part := PlansComplete(goals, catalog, scenario, selected, order);
    }
  }

  /** `choose_best` returns a listed plan, no plan is cheaper and every plan before it is dearer. */
  lemma {:induction false} ChooseBestSpec(plans: seq<Plan>) returns (at: nat)
    requires plans != []
    ensures at < |plans| && ChooseBest(plans) == Some(plans[at])
    ensures forall i :: 0 <= i < |plans| ==> plans[at].cost <= plans[i].cost
    ensures forall i :: 0 <= i < at ==> plans[at].cost < plans[i].cost
  {
    if |plans| == 1 {
      assert ChooseBest(plans[1..]) == None;
      at := 0;
    } else {
      var later := ChooseBestSpec(plans[1..]);
      assert forall i :: 0 < i < |plans| ==> plans[i] == plans[1..][i - 1];
      at := if plans[1..][later].cost < plans[0].cost then later + 1 else 0;
    }
  }

  /**
   * Optimality: with producer costs of at least zero the chosen plan costs exactly the minimum over
   * every way to serve the goals, whether or not the search would find it.
   */
  lemma PlannerOptimal(goals: seq<string>, catalog: Catalog, scenario: Scenario)
    requires UniqueNames(catalog.producers)
    requires forall p :: p in catalog.producers ==> p.cost >= 0
    ensures var best := ChooseBest(Plans(goals, catalog, scenario));
            && (forall selected, order :: Serves(goals, catalog, scenario, selected, order)
                  ==> best.Some? && best.value.cost <= TotalCost(selected, order))
            && (best.Some? ==> exists selected, order :: Serves(goals, catalog, scenario, selected, order)
                                                      && best.value.cost == TotalCost(selected, order))
  {
    var plans := Plans(goals, catalog, scenario);
    forall selected, order | Serves(goals, catalog, scenario, selected, order)
      ensures ChooseBest(plans).Some? && ChooseBest(plans).value.cost <= TotalCost(selected, order)
    {
      var plan, part := PlansComplete(goals, catalog, scenario, selected, order);
      var at := ChooseBestSpec(plans);
    }
    if plans != [] {
      var at := ChooseBestSpec(plans);
      var selected, order := PlansSound(goals, catalog, scenario, plans[at]);
    }
  }
}

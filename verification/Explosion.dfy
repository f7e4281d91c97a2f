/** Plan-space growth: the naive and the memoised search, canonical plans and pruning
    (experiments/candidate-discovery/step3_explosion.py). */
module Explosion {
  import opened Enumeration
  import opened Ordering

  datatype Alternative = Alternative(name: string, intent: string, resource: Option<string>, cost: int)

  datatype Producer = Producer(name: string, resource: string, dependency: Option<string>, cost: int, properties: seq<string>)

  datatype Catalog = Catalog(alternatives: seq<Alternative>, producers: seq<Producer>, intents: seq<string>)

  datatype Plan = Plan(realizations: seq<string>, producers: seq<string>, cost: int)

  // ---------------------------------------------------------------- chains

  /** A height for every resource, above that of whatever its producers depend on. */
  ghost predicate IsRank(c: Catalog, rank: map<string, nat>)
  {
    forall p :: p in c.producers && p.dependency.Some? ==>
      p.resource in rank && p.dependency.value in rank && rank[p.dependency.value] < rank[p.resource]
  }

  /** Dependencies run in no circles. */
  ghost predicate Founded(c: Catalog)
  {
    exists rank :: IsRank(c, rank)
  }

  ghost function Height(c: Catalog, resource: string): nat
    requires Founded(c)
  {
    var rank :| IsRank(c, rank);
    if resource in rank then rank[resource] else 0
  }

  function ProducersFor(ps: seq<Producer>, resource: string): (r: seq<Producer>)
    ensures forall p :: p in r <==> p in ps && p.resource == resource
    ensures |r| <= |ps|
  {
    if ps == [] then [] else (if ps[0].resource == resource then [ps[0]] else []) + ProducersFor(ps[1..], resource)
  }

  function AppendEach(chains: seq<seq<string>>, name: string): seq<seq<string>>
  {
    if chains == [] then [] else [chains[0] + [name]] + AppendEach(chains[1..], name)
  }

  /** The chains of producers that end in a producer of the resource. */
  function Chains(c: Catalog, resource: string): seq<seq<string>>
    requires Founded(c)
    decreases Height(c, resource), |c.producers| + 1
  {
    ChainsVia(c, resource, ProducersFor(c.producers, resource))
  }

  function ChainsBy(c: Catalog, p: Producer): seq<seq<string>>
    requires Founded(c) && p in c.producers
    decreases Height(c, p.resource), 0
  {
    if p.dependency.None? then [[p.name]] else AppendEach(Chains(c, p.dependency.value), p.name)
  }

  function ChainsVia(c: Catalog, resource: string, ps: seq<Producer>): seq<seq<string>>
    requires Founded(c) && forall p :: p in ps ==> p in c.producers && p.resource == resource
    decreases Height(c, resource), |ps|
  {
    if ps == [] then [] else ChainsBy(c, ps[0]) + ChainsVia(c, resource, ps[1..])
  }

  /** One turn of the loop over producers. */
  lemma ViaStep(c: Catalog, resource: string, ps: seq<Producer>, i: nat, chains: seq<seq<string>>)
    requires Founded(c) && i < |ps| && forall p :: p in ps ==> p in c.producers && p.resource == resource
    ensures ps[i] in ps
    ensures chains + ChainsVia(c, resource, ps[i..]) == (chains + ChainsBy(c, ps[i])) + ChainsVia(c, resource, ps[i + 1..])
  {
    assert ps[i..][0] == ps[i] && ps[i..][1..] == ps[i + 1..];
  }

  /** `_naive_chain`. */
  method NaiveChain(c: Catalog, resource: string) returns (chains: seq<seq<string>>)
    requires Founded(c)
    ensures chains == Chains(c, resource)
    decreases Height(c, resource)
  {
    chains := [];
    var ps := ProducersFor(c.producers, resource);
    for i := 0 to |ps|
      invariant chains + ChainsVia(c, resource, ps[i..]) == Chains(c, resource)
    {
      ViaStep(c, resource, ps, i, chains);
      if ps[i].dependency.None? {
        chains := chains + [[ps[i].name]];
      } else {
        var below := NaiveChain(c, ps[i].dependency.value);
        chains := chains + AppendEach(below, ps[i].name);
      }
    }
  }

  /** The dictionary of chains and the search that fills it. */
  class ChainCache {
    const catalog: Catalog
    var cache: map<string, seq<seq<string>>>

    constructor (c: Catalog)
      requires Founded(c)
      ensures Valid() && catalog == c && cache == map[]
    {
      catalog, cache := c, map[];
    }

    /** Every entry is what the search without a cache computes. */
    ghost predicate Valid()
      reads this
    {
      Founded(catalog) && forall r :: r in cache ==> cache[r] == Chains(catalog, r)
    }

    /** `_memo_chain`. */
    method MemoChain(resource: string) returns (chains: seq<seq<string>>)
      requires Valid()
      modifies this
      ensures Valid() && chains == Chains(catalog, resource)
      ensures resource in cache && old(cache).Keys <= cache.Keys
      decreases Height(catalog, resource)
    {
      if resource in cache {
        return cache[resource];
      }
      chains := [];
      var ps := ProducersFor(catalog.producers, resource);
      for i := 0 to |ps|
        invariant Valid() && old(cache).Keys <= cache.Keys
        invariant chains + ChainsVia(catalog, resource, ps[i..]) == Chains(catalog, resource)
      {
        ViaStep(catalog, resource, ps, i, chains);
        if ps[i].dependency.None? {
          chains := chains + [[ps[i].name]];
        } else {
          var below := MemoChain(ps[i].dependency.value);
          chains := chains + AppendEach(below, ps[i].name);
        }
      }
      cache := cache[resource := chains];
    }
  }

  // ---------------------------------------------------------------- costs

  function FirstAlternativeCost(alternatives: seq<Alternative>, name: string): int
  {
    if alternatives == [] then 0
    else if alternatives[0].name == name then alternatives[0].cost
    else FirstAlternativeCost(alternatives[1..], name)
  }

  /** `next(...)` over the catalogue. */
  function FirstProducer(ps: seq<Producer>, name: string): Option<Producer>
  {
    if ps == [] then None else if ps[0].name == name then Some(ps[0]) else FirstProducer(ps[1..], name)
  }

  /** The dictionary from names to producers: the last one wins. */
  function ProducerByName(ps: seq<Producer>, name: string): Option<Producer>
  {
    if ps == [] then None
    else
      var later := ProducerByName(ps[1..], name);
      if later.Some? then later else if ps[0].name == name then Some(ps[0]) else None
  }

  function CostOf(p: Option<Producer>): int
  {
    if p.Some? then p.value.cost else 0
  }

  function SumFirst(ps: seq<Producer>, names: seq<string>): int
  {
    if names == [] then 0 else CostOf(FirstProducer(ps, names[0])) + SumFirst(ps, names[1..])
  }

  function SumByName(ps: seq<Producer>, names: seq<string>): int
  {
    if names == [] then 0 else CostOf(ProducerByName(ps, names[0])) + SumByName(ps, names[1..])
  }

  function SumSelected(selected: seq<Alternative>): int
  {
    if selected == [] then 0 else selected[0].cost + SumSelected(selected[1..])
  }

  function SumRealizations(alternatives: seq<Alternative>, names: seq<string>): int
  {
    if names == [] then 0 else FirstAlternativeCost(alternatives, names[0]) + SumRealizations(alternatives, names[1..])
  }

  function NamesOf(selected: seq<Alternative>): seq<string>
  {
    seq(|selected|, i requires 0 <= i < |selected| => selected[i].name)
  }

  function AsSet(names: seq<string>): set<string>
  {
    set x | x in names
  }

  // ---------------------------------------------------------------- the naive search

  function OfIntent(alternatives: seq<Alternative>, intent: string): (r: seq<Alternative>)
    ensures forall a :: a in r <==> a in alternatives && a.intent == intent
  {
    if alternatives == [] then []
    else (if alternatives[0].intent == intent then [alternatives[0]] else []) + OfIntent(alternatives[1..], intent)
  }

  function ByIntent(c: Catalog): seq<seq<Alternative>>
  {
    seq(|c.intents|, i requires 0 <= i < |c.intents| => OfIntent(c.alternatives, c.intents[i]))
  }

  function ExtendOne(c: Catalog, existing: (seq<string>, int), chains: seq<seq<string>>): seq<(seq<string>, int)>
  {
    if chains == [] then []
    else [(existing.0 + chains[0], existing.1 + SumFirst(c.producers, chains[0]))] + ExtendOne(c, existing, chains[1..])
  }

  function ExtendAll(c: Catalog, front: seq<(seq<string>, int)>, chains: seq<seq<string>>): seq<(seq<string>, int)>
  {
    if front == [] then [] else ExtendOne(c, front[0], chains) + ExtendAll(c, front[1..], chains)
  }

  /** The frontier after the remaining alternatives. */
  function Frontier(c: Catalog, front: seq<(seq<string>, int)>, selected: seq<Alternative>): seq<(seq<string>, int)>
    requires Founded(c)
    decreases |selected|
  {
    if selected == [] then front
    else if selected[0].resource.None? then Frontier(c, front, selected[1..])
    else Frontier(c, ExtendAll(c, front, Chains(c, selected[0].resource.value)), selected[1..])
  }

  function PlansAt(selected: seq<Alternative>, front: seq<(seq<string>, int)>): seq<Plan>
  {
    if front == [] then [] else [Plan(NamesOf(selected), front[0].0, front[0].1)] + PlansAt(selected, front[1..])
  }

  function NaiveOver(c: Catalog, selections: seq<seq<Alternative>>): seq<Plan>
    requires Founded(c)
  {
    if selections == [] then []
    else PlansAt(selections[0], Frontier(c, [([], SumSelected(selections[0]))], selections[0])) + NaiveOver(c, selections[1..])
  }

  function NaivePlans(c: Catalog): seq<Plan>
    requires Founded(c)
  {
    NaiveOver(c, Product(ByIntent(c)))
  }

  method NaiveFrontier(c: Catalog, selected: seq<Alternative>) returns (front: seq<(seq<string>, int)>)
    requires Founded(c)
    ensures front == Frontier(c, [([], SumSelected(selected))], selected)
  {
    front := [([], SumSelected(selected))];
    for i := 0 to |selected|
      invariant Frontier(c, front, selected[i..]) == Frontier(c, [([], SumSelected(selected))], selected)
    {
      assert selected[i..][0] == selected[i] && selected[i..][1..] == selected[i + 1..];
      if selected[i].resource.Some? {
        var chains := NaiveChain(c, selected[i].resource.value);
        front := ExtendAll(c, front, chains);
      }
    }
  }

  /** `naive_search` without a limit. */
  method NaiveSearch(c: Catalog) returns (plans: seq<Plan>)
    requires Founded(c)
    ensures plans == NaivePlans(c)
  {
    plans := [];
    var selections := Product(ByIntent(c));
    for i := 0 to |selections|
      invariant plans + NaiveOver(c, selections[i..]) == NaivePlans(c)
    {
      assert selections[i..][0] == selections[i] && selections[i..][1..] == selections[i + 1..];
      var front := NaiveFrontier(c, selections[i]);
      plans := plans + PlansAt(selections[i], front);
    }
  }

  // ---------------------------------------------------------------- canonical plans

  /** The resources that some of the names produce. */
  function Produced(c: Catalog, names: set<string>): set<string>
  {
    set x | x in names && ProducerByName(c.producers, x).Some? :: ProducerByName(c.producers, x).value.resource
  }

  /** No resource is produced twice. */
  predicate ProducesOnce(c: Catalog, names: set<string>)
  {
    |Produced(c, names)| == |names|
  }

  function Normalized(c: Catalog, realizations: seq<string>, names: set<string>): Plan
  {
    Plan(realizations, SortNames(names), SumRealizations(c.alternatives, realizations) + SumByName(c.producers, SortNames(names)))
  }

  function CanonicalPlans(c: Catalog, plans: seq<Plan>): set<Plan>
  {
    set plan | plan in plans && ProducesOnce(c, AsSet(plan.producers)) :: Normalized(c, plan.realizations, AsSet(plan.producers))
  }

  /** The plans that produce nothing twice, in order and with repetitions. */
  function ValidPlans(c: Catalog, plans: seq<Plan>): seq<Plan>
  {
    if plans == [] then []
    else (if ProducesOnce(c, AsSet(plans[0].producers)) then [plans[0]] else []) + ValidPlans(c, plans[1..])
  }

  type Key = (seq<string>, set<string>)

  /** The dictionary of the plans seen so far holds the canonical form under each of their keys. */
  ghost predicate Keyed(c: Catalog, seen: set<Plan>, unique: map<Key, Plan>)
  {
    Covers(c, seen, unique) && forall key :: key in unique ==> Filed(c, seen, key, unique[key])
  }

  ghost predicate Covers(c: Catalog, seen: set<Plan>, unique: map<Key, Plan>)
  {
    forall plan :: plan in seen && ProducesOnce(c, AsSet(plan.producers)) ==> KeyOf(plan) in unique
  }

  ghost predicate Filed(c: Catalog, seen: set<Plan>, key: Key, canonical: Plan)
  {
    canonical == Normalized(c, key.0, key.1) && Stems(c, seen, key)
  }

  function KeyOf(plan: Plan): Key
  {
    (plan.realizations, AsSet(plan.producers))
  }

  /** Some valid plan seen so far has this key. */
  ghost predicate Stems(c: Catalog, seen: set<Plan>, key: Key)
  {
    exists plan :: plan in seen && ProducesOnce(c, AsSet(plan.producers)) && KeyOf(plan) == key
  }

  /** `canonicalize`: the canonical plans, and how many plans were merged as equivalent, were exact repetitions,
      or produced something twice; together they account for every plan. */
  method Canonicalize(c: Catalog, plans: seq<Plan>)
    returns (canonical: set<Plan>, equivalents: nat, duplicates: nat, invalid: nat)
    ensures canonical == CanonicalPlans(c, plans)
    ensures invalid == |plans| - |ValidPlans(c, plans)|
    ensures duplicates == |ValidPlans(c, plans)| - |Seen(ValidPlans(c, plans))|
    ensures |canonical| + equivalents + duplicates + invalid == |plans|
  {
    var unique: map<Key, Plan> := map[];
    var valid: seq<Plan> := [];
    invalid := 0;
    for i := 0 to |plans|
      invariant Keyed(c, Seen(plans[..i]), unique)
      invariant valid + ValidPlans(c, plans[i..]) == ValidPlans(c, plans)
      invariant invalid + |valid| == i
    {
      ValidStep(c, plans, i, valid);
      SeenMore(plans, i);
      var names := AsSet(plans[i].producers);
      if !ProducesOnce(c, names) {
        KeyedInvalid(c, Seen(plans[..i]), unique, plans[i]);
        invalid := invalid + 1;
      } else {
        KeyedValid(c, Seen(plans[..i]), unique, plans[i]);
        valid := valid + [plans[i]];
        unique := unique[KeyOf(plans[i]) := Normalized(c, plans[i].realizations, names)];
      }
    }
    assert plans[..|plans|] == plans && valid == ValidPlans(c, plans);
    canonical := unique.Values;
    KeyedIsCanonical(c, plans, unique);
    KeyedCounts(c, plans, unique);
    duplicates := |valid| - |Seen(valid)|;
    equivalents := |valid| - |unique| - duplicates;
  }

  lemma ValidStep(c: Catalog, plans: seq<Plan>, i: nat, valid: seq<Plan>)
    requires i < |plans|
    ensures valid + ValidPlans(c, plans[i..])
         == (if ProducesOnce(c, AsSet(plans[i].producers)) then valid + [plans[i]] else valid) + ValidPlans(c, plans[i + 1..])
  {
    assert plans[i..][0] == plans[i] && plans[i..][1..] == plans[i + 1..];
  }

  lemma {:induction false} ValidMembers(c: Catalog, plans: seq<Plan>)
    ensures forall p :: p in ValidPlans(c, plans) <==> p in plans && ProducesOnce(c, AsSet(p.producers))
  {
    if plans != [] {
      ValidMembers(c, plans[1..]);
      assert plans == [plans[0]] + plans[1..];
    }
  }

  lemma {:induction false} SeenAtMost(plans: seq<Plan>)
    ensures |Seen(plans)| <= |plans|
  {
    if plans != [] {
      SeenAtMost(plans[1..]);
      assert Seen(plans) == {plans[0]} + Seen(plans[1..]);
    }
  }

  function Keys(plans: set<Plan>): set<Key>
  {
    set p | p in plans :: KeyOf(p)
  }

  lemma {:induction false} KeysAtMost(plans: set<Plan>)
    ensures |Keys(plans)| <= |plans|
    decreases |plans|
  {
    if plans != {} {
      var p :| p in plans;
      KeysAtMost(plans - {p});
      assert Keys(plans) == Keys(plans - {p}) + {KeyOf(p)};
    }
  }

  lemma {:induction false} InjectiveValues<K(!new), V(!new)>(m: map<K, V>)
    requires forall a, b :: a in m && b in m && m[a] == m[b] ==> a == b
    ensures |m.Values| == |m|
    decreases |m|
  {
    if m.Keys == {} {
      assert m.Values == {};
    } else {
      var key :| key in m;
      var fewer := m - {key};
      assert m.Keys == fewer.Keys + {key};
      InjectiveValues(fewer);
      assert m.Values == fewer.Values + {m[key]};
    }
  }

  /** A canonical plan tells its key, so a dictionary of canonical plans has as many values as keys. */
  lemma CanonicalValues(c: Catalog, unique: map<Key, Plan>)
    requires forall key :: key in unique ==> unique[key] == Normalized(c, key.0, key.1)
    ensures |unique.Values| == |unique|
  {
    forall a, b | a in unique && b in unique && unique[a] == unique[b] ensures a == b {
      SortTells(a.1, b.1);
    }
    InjectiveValues(unique);
  }

  lemma SortTells(a: set<string>, b: set<string>)
    requires SortNames(a) == SortNames(b)
    ensures a == b
  {
    assert forall x :: x in a <==> x in SortNames(a);
  }

  lemma KeyedCounts(c: Catalog, plans: seq<Plan>, unique: map<Key, Plan>)
    requires Keyed(c, Seen(plans), unique)
    ensures |unique.Values| == |unique| <= |Seen(ValidPlans(c, plans))| <= |ValidPlans(c, plans)|
  {
    CanonicalValues(c, unique);
    var valid := Seen(ValidPlans(c, plans));
    ValidMembers(c, plans);
    forall key ensures key in unique.Keys <==> key in Keys(valid) {
      if key in unique.Keys {
        assert Filed(c, Seen(plans), key, unique[key]);
        var plan :| plan in Seen(plans) && ProducesOnce(c, AsSet(plan.producers)) && KeyOf(plan) == key;
        assert plan in valid;
      }
    }
    assert unique.Keys == Keys(valid);
    KeysAtMost(valid);
    SeenAtMost(ValidPlans(c, plans));
  }

  function Seen(plans: seq<Plan>): set<Plan>
  {
    set plan | plan in plans
  }

  lemma SeenMore(plans: seq<Plan>, i: nat)
    requires i < |plans|
    ensures Seen(plans[..i + 1]) == Seen(plans[..i]) + {plans[i]}
  {
    assert plans[..i + 1] == plans[..i] + [plans[i]];
  }

  lemma KeyedValid(c: Catalog, seen: set<Plan>, unique: map<Key, Plan>, plan: Plan)
    requires Keyed(c, seen, unique) && ProducesOnce(c, AsSet(plan.producers))
    ensures Keyed(c, seen + {plan},
                  unique[KeyOf(plan) := Normalized(c, plan.realizations, AsSet(plan.producers))])
  {
    var later := unique[KeyOf(plan) := Normalized(c, plan.realizations, AsSet(plan.producers))];
    CoversMore(c, seen, unique, plan, Normalized(c, plan.realizations, AsSet(plan.producers)));
    forall key | key in later ensures Filed(c, seen + {plan}, key, later[key]) {
      if key == KeyOf(plan) {
        assert plan in seen + {plan};
      } else {
        assert Filed(c, seen, key, unique[key]);
        StemsMore(c, seen, plan, key);
      }
    }
  }

  lemma CoversMore(c: Catalog, seen: set<Plan>, unique: map<Key, Plan>, plan: Plan, canonical: Plan)
    requires Covers(c, seen, unique)
    ensures Covers(c, seen + {plan}, unique[KeyOf(plan) := canonical])
  {
  }

  lemma StemsMore(c: Catalog, seen: set<Plan>, plan: Plan, key: Key)
    requires Stems(c, seen, key)
    ensures Stems(c, seen + {plan}, key)
  {
    var earlier :| earlier in seen && ProducesOnce(c, AsSet(earlier.producers)) && KeyOf(earlier) == key;
    assert earlier in seen + {plan};
  }

  lemma KeyedInvalid(c: Catalog, seen: set<Plan>, unique: map<Key, Plan>, plan: Plan)
    requires Keyed(c, seen, unique) && !ProducesOnce(c, AsSet(plan.producers))
    ensures Keyed(c, seen + {plan}, unique)
  {
    forall key | key in unique ensures Filed(c, seen + {plan}, key, unique[key]) {
      StemsMore(c, seen, plan, key);
    }
  }

  lemma KeyedIsCanonical(c: Catalog, plans: seq<Plan>, unique: map<Key, Plan>)
    requires Keyed(c, Seen(plans[..|plans|]), unique)
    ensures unique.Values == CanonicalPlans(c, plans)
  {
    assert plans[..|plans|] == plans;
    forall p ensures p in unique.Values <==> p in CanonicalPlans(c, plans) {
      if p in unique.Values {
        var key :| key in unique && unique[key] == p;
        assert Filed(c, Seen(plans), key, p);
      }
      if p in CanonicalPlans(c, plans) {
        var plan :| plan in plans && ProducesOnce(c, AsSet(plan.producers)) && p == Normalized(c, plan.realizations, AsSet(plan.producers));
        assert plan in Seen(plans) && unique[KeyOf(plan)] == p;
      }
    }
  }

  // ---------------------------------------------------------------- the memoised search

  function ResourcesOf(selected: seq<Alternative>): set<string>
  {
    set a | a in selected && a.resource.Some? :: a.resource.value
  }

  function ChainPools(c: Catalog, resources: seq<string>): seq<seq<seq<string>>>
    requires Founded(c)
  {
    if resources == [] then [] else [Chains(c, resources[0])] + ChainPools(c, resources[1..])
  }

  function Flatten(chains: seq<seq<string>>): seq<string>
  {
    if chains == [] then [] else chains[0] + Flatten(chains[1..])
  }

  function MemoPlan(c: Catalog, selected: seq<Alternative>, chains: seq<seq<string>>): Plan
  {
    var names := AsSet(Flatten(chains));
    Plan(NamesOf(selected), SortNames(names), SumSelected(selected) + SumByName(c.producers, SortNames(names)))
  }

  function MemoAt(c: Catalog, selected: seq<Alternative>, choices: seq<seq<seq<string>>>): seq<Plan>
  {
    if choices == [] then [] else [MemoPlan(c, selected, choices[0])] + MemoAt(c, selected, choices[1..])
  }

  function MemoOver(c: Catalog, selections: seq<seq<Alternative>>): seq<Plan>
    requires Founded(c)
  {
    if selections == [] then []
    else
      MemoFrom(c, selections[0]) + MemoOver(c, selections[1..])
  }

  function MemoPlans(c: Catalog): seq<Plan>
    requires Founded(c)
  {
    MemoOver(c, Product(ByIntent(c)))
  }

  method ChoicesOf(cache: ChainCache, resources: seq<string>) returns (pools: seq<seq<seq<string>>>)
    requires cache.Valid()
    modifies cache
    ensures cache.Valid() && pools == ChainPools(cache.catalog, resources)
  {
    pools := [];
    for i := 0 to |resources|
      invariant cache.Valid()
      invariant pools + ChainPools(cache.catalog, resources[i..]) == ChainPools(cache.catalog, resources)
    {
      assert resources[i..][0] == resources[i] && resources[i..][1..] == resources[i + 1..];
      var chains := cache.MemoChain(resources[i]);
      pools := pools + [chains];
    }
  }

  function MemoFrom(c: Catalog, selected: seq<Alternative>): seq<Plan>
    requires Founded(c)
  {
    MemoAt(c, selected, Product(ChainPools(c, SortNames(ResourcesOf(selected)))))
  }

  lemma MemoStep(c: Catalog, selections: seq<seq<Alternative>>, i: nat, plans: seq<Plan>)
    requires Founded(c) && i < |selections|
    ensures plans + MemoOver(c, selections[i..]) == (plans + MemoFrom(c, selections[i])) + MemoOver(c, selections[i + 1..])
  {
    assert selections[i..][0] == selections[i] && selections[i..][1..] == selections[i + 1..];
  }

  /** `memoized_search` without a limit. */
  method MemoizedSearch(c: Catalog) returns (plans: seq<Plan>)
    requires Founded(c)
    ensures plans == MemoPlans(c)
  {
    plans := [];
    var cache := new ChainCache(c);
    var selections := Product(ByIntent(c));
    for i := 0 to |selections|
      invariant cache.Valid() && cache.catalog == c
      invariant plans + MemoOver(c, selections[i..]) == MemoPlans(c)
    {
      MemoStep(c, selections, i, plans);
      var pools := ChoicesOf(cache, SortNames(ResourcesOf(selections[i])));
      plans := plans + MemoAt(c, selections[i], Product(pools));
    }
  }

  // ---------------------------------------------------------------- pruning

  function Offered(c: Catalog, names: seq<string>): set<(string, seq<string>)>
  {
    set x | x in names && ProducerByName(c.producers, x).Some? ::
      (ProducerByName(c.producers, x).value.resource, ProducerByName(c.producers, x).value.properties)
  }

  type PruneKey = (seq<string>, set<(string, seq<string>)>)

  function PruneKeyOf(c: Catalog, plan: Plan): PruneKey
  {
    (plan.realizations, Offered(c, plan.producers))
  }

  /** Among the plans of its selection and offer the plan at `i` is a cheapest one, and the first such. */
  predicate FirstCheapest(c: Catalog, plans: seq<Plan>, i: nat)
    requires i < |plans|
  {
    forall j :: 0 <= j < |plans| && PruneKeyOf(c, plans[j]) == PruneKeyOf(c, plans[i]) ==>
      if j < i then plans[i].cost < plans[j].cost else plans[i].cost <= plans[j].cost
  }

  /** The dictionary holds, under every key seen, the plan at the place `at` gives. */
  ghost predicate Cheapest(c: Catalog, plans: seq<Plan>, best: map<PruneKey, Plan>, at: map<PruneKey, nat>)
  {
    && best.Keys == at.Keys
    && (forall key :: key in at ==> at[key] < |plans| && plans[at[key]] == best[key] && PruneKeyOf(c, best[key]) == key
                                    && FirstCheapest(c, plans, at[key]))
    && forall j :: 0 <= j < |plans| ==> PruneKeyOf(c, plans[j]) in at
  }

  lemma CheapestMore(c: Catalog, plans: seq<Plan>, plan: Plan, best: map<PruneKey, Plan>, at: map<PruneKey, nat>)
    requires Cheapest(c, plans, best, at)
    ensures var key := PruneKeyOf(c, plan);
            if key !in best || plan.cost < best[key].cost
            then Cheapest(c, plans + [plan], best[key := plan], at[key := |plans|])
            else Cheapest(c, plans + [plan], best, at)
  {
    var key, more := PruneKeyOf(c, plan), plans + [plan];
    assert more[|plans|] == plan;
    forall k | k in at && (k != key || !(key !in best || plan.cost < best[key].cost)) ensures FirstCheapest(c, more, at[k]) {
      assert FirstCheapest(c, plans, at[k]) && more[at[k]] == plans[at[k]];
    }
    if key !in best || plan.cost < best[key].cost {
      forall j | 0 <= j < |plans| && PruneKeyOf(c, plans[j]) == key ensures plan.cost < plans[j].cost {
        assert FirstCheapest(c, plans, at[key]);
      }
      assert FirstCheapest(c, more, |plans|);
    }
  }

  /** Some producer of the plan gives the resource with these properties. */
  ghost predicate Offers(c: Catalog, plan: Plan, resource: string, properties: seq<string>)
  {
    exists name, p :: name in plan.producers && ProducerByName(c.producers, name) == Some(p) && p.resource == resource && p.properties == properties
  }

  /** The plans realize the same and offer the same resources with the same properties. */
  ghost predicate Alike(c: Catalog, a: Plan, b: Plan)
  {
    a.realizations == b.realizations && forall resource, properties :: Offers(c, a, resource, properties) <==> Offers(c, b, resource, properties)
  }

  lemma OfferedExactly(c: Catalog, plan: Plan, resource: string, properties: seq<string>)
    ensures (resource, properties) in Offered(c, plan.producers) <==> Offers(c, plan, resource, properties)
  {
    if name, p :| name in plan.producers && ProducerByName(c.producers, name) == Some(p) && p.resource == resource && p.properties == properties {
      assert (p.resource, p.properties) in Offered(c, plan.producers);
    }
  }

  lemma AlikeExactly(c: Catalog, a: Plan, b: Plan)
    ensures PruneKeyOf(c, a) == PruneKeyOf(c, b) <==> Alike(c, a, b)
  {
    forall offer: (string, seq<string>)
      ensures offer in Offered(c, a.producers) <==> Offers(c, a, offer.0, offer.1)
      ensures offer in Offered(c, b.producers) <==> Offers(c, b, offer.0, offer.1)
    {
      OfferedExactly(c, a, offer.0, offer.1);
      OfferedExactly(c, b, offer.0, offer.1);
    }
    if Alike(c, a, b) {
      assert Offered(c, a.producers) == Offered(c, b.producers);
    }
    if PruneKeyOf(c, a) == PruneKeyOf(c, b) {
      forall resource, properties ensures Offers(c, a, resource, properties) <==> Offers(c, b, resource, properties) {
        OfferedExactly(c, a, resource, properties);
        OfferedExactly(c, b, resource, properties);
      }
    }
  }

  /** Among the plans like it the plan at `i` is a cheapest one, and the first such. */
  ghost predicate CheapestAlike(c: Catalog, plans: seq<Plan>, i: nat)
    requires i < |plans|
  {
    forall j :: 0 <= j < |plans| && Alike(c, plans[j], plans[i]) ==>
      if j < i then plans[i].cost < plans[j].cost else plans[i].cost <= plans[j].cost
  }

  lemma CheapestAlikeExactly(c: Catalog, plans: seq<Plan>, i: nat)
    requires i < |plans|
    ensures FirstCheapest(c, plans, i) <==> CheapestAlike(c, plans, i)
  {
    forall j | 0 <= j < |plans| ensures PruneKeyOf(c, plans[j]) == PruneKeyOf(c, plans[i]) <==> Alike(c, plans[j], plans[i]) {
      AlikeExactly(c, plans[j], plans[i]);
    }
  }

  /** `prune`: of every selection and offer of resources and properties the first cheapest plan is kept. */
  method Prune(c: Catalog, plans: seq<Plan>) returns (kept: set<Plan>)
    ensures kept == set i | 0 <= i < |plans| && CheapestAlike(c, plans, i) :: plans[i]
  {
    var best: map<PruneKey, Plan> := map[];
    ghost var at: map<PruneKey, nat> := map[];
    for i := 0 to |plans|
      invariant Cheapest(c, plans[..i], best, at)
    {
      assert plans[..i + 1] == plans[..i] + [plans[i]];
      CheapestMore(c, plans[..i], plans[i], best, at);
      var key := PruneKeyOf(c, plans[i]);
      if key !in best || plans[i].cost < best[key].cost {
        best, at := best[key := plans[i]], at[key := i];
      }
    }
    assert plans[..|plans|] == plans;
    kept := best.Values;
    forall i | 0 <= i < |plans| ensures FirstCheapest(c, plans, i) <==> CheapestAlike(c, plans, i) {
      CheapestAlikeExactly(c, plans, i);
    }
    forall p ensures p in kept <==> exists i :: 0 <= i < |plans| && FirstCheapest(c, plans, i) && plans[i] == p {
      PrunedExactly(c, plans, best, at, p);
    }
  }

  lemma PrunedExactly(c: Catalog, plans: seq<Plan>, best: map<PruneKey, Plan>, at: map<PruneKey, nat>, p: Plan)
    requires Cheapest(c, plans, best, at)
    ensures p in best.Values <==> exists i :: 0 <= i < |plans| && FirstCheapest(c, plans, i) && plans[i] == p
  {
    if p in best.Values {
      var key :| key in best && best[key] == p;
      assert FirstCheapest(c, plans, at[key]) && plans[at[key]] == p;
    }
    if i :| 0 <= i < |plans| && FirstCheapest(c, plans, i) && plans[i] == p {
      var key := PruneKeyOf(c, p);
      assert FirstCheapest(c, plans, at[key]);
      assert at[key] == i;
    }
  }
}

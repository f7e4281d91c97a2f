/** The memoised search finds exactly the canonical plans of the naive one. */
module ExplosionTheorems {
  import opened Enumeration
  import opened Explosion
  import opened Ordering

  // ---------------------------------------------------------------- layered catalogues

  /** A name stands for one producer, and a name stands for one alternative. */
  ghost predicate UniqueNames(c: Catalog)
  {
    && (forall p, q :: p in c.producers && q in c.producers && p.name == q.name ==> p == q)
    && forall a, b :: a in c.alternatives && b in c.alternatives && a.name == b.name ==> a == b
  }

  /** All producers of a resource depend on the same thing. */
  ghost predicate Uniform(c: Catalog)
  {
    forall p, q :: p in c.producers && q in c.producers && p.resource == q.resource ==> p.dependency == q.dependency
  }

  function DependencyOf(c: Catalog, resource: string): Option<string>
  {
    var ps := ProducersFor(c.producers, resource);
    if ps == [] then None else ps[0].dependency
  }

  /** The resource and what it is built upon, from the top down. */
  function Trace(c: Catalog, resource: string): seq<string>
    requires Founded(c)
    decreases Height(c, resource)
  {
    var dependency := DependencyOf(c, resource);
    if dependency.None? then [resource]
    else
      assert ProducersFor(c.producers, resource)[0] in ProducersFor(c.producers, resource);
      [resource] + Trace(c, dependency.value)
  }

  /** Different needed resources are built upon different things. */
  ghost predicate Apart(c: Catalog)
    requires Founded(c)
  {
    forall a, b, r :: Needed(c, a) && Needed(c, b) && r in Trace(c, a) && r in Trace(c, b) ==> a == b
  }

  /** Some alternative requires the resource. */
  ghost predicate Needed(c: Catalog, resource: string)
  {
    exists a :: a in c.alternatives && a.resource == Some(resource)
  }

  ghost predicate Layered(c: Catalog)
  {
    Founded(c) && UniqueNames(c) && Uniform(c) && Apart(c)
  }

  // ---------------------------------------------------------------- producers by name

  lemma {:induction false} NamedOnce(ps: seq<Producer>, p: Producer)
    requires p in ps && forall a, b :: a in ps && b in ps && a.name == b.name ==> a == b
    ensures ProducerByName(ps, p.name) == Some(p)
  {
    if p in ps[1..] {
      NamedOnce(ps[1..], p);
    } else {
      NotNamed(ps[1..], p.name);
    }
  }

  lemma {:induction false} NotNamed(ps: seq<Producer>, name: string)
    requires forall q :: q in ps ==> q.name != name
    ensures ProducerByName(ps, name).None?
  {
    if ps != [] {
      NotNamed(ps[1..], name);
    }
  }

  /** The resource a known name produces. */
  function Makes(c: Catalog, name: string): Option<string>
  {
    var p := ProducerByName(c.producers, name);
    if p.Some? then Some(p.value.resource) else None
  }

  // ---------------------------------------------------------------- chains follow the trace

  lemma {:induction false} AppendEachMembers(chains: seq<seq<string>>, name: string, chain: seq<string>)
    ensures chain in AppendEach(chains, name) <==> exists below :: below in chains && chain == below + [name]
  {
    if chains != [] {
      AppendEachMembers(chains[1..], name, chain);
      if below :| below in chains && chain == below + [name] && below != chains[0] {
        assert below in chains[1..];
      }
    }
  }

  lemma {:induction false} ViaMembers(c: Catalog, resource: string, ps: seq<Producer>, chain: seq<string>)
    requires Founded(c) && forall p :: p in ps ==> p in c.producers && p.resource == resource
    ensures chain in ChainsVia(c, resource, ps) <==> exists p :: p in ps && chain in ChainsBy(c, p)
    decreases |ps|
  {
    if ps != [] {
      ViaMembers(c, resource, ps[1..], chain);
      if p :| p in ps && chain in ChainsBy(c, p) && p != ps[0] {
        assert p in ps[1..];
      }
    }
  }

  /** Bottom-up, the names of a chain produce the trace of its resource in reverse. */
  ghost predicate Follows(c: Catalog, chain: seq<string>, trace: seq<string>)
  {
    |chain| == |trace| && forall i :: 0 <= i < |chain| ==> Makes(c, chain[i]) == Some(trace[|trace| - 1 - i])
  }

  lemma UniformDependency(c: Catalog, p: Producer)
    requires Uniform(c) && p in c.producers
    ensures DependencyOf(c, p.resource) == p.dependency
  {
    var ps := ProducersFor(c.producers, p.resource);
    assert p in ps && ps[0] in ps;
  }

  lemma {:induction false} ChainFollows(c: Catalog, resource: string, chain: seq<string>)
    requires Founded(c) && UniqueNames(c) && Uniform(c) && chain in Chains(c, resource)
    ensures Follows(c, chain, Trace(c, resource))
    decreases Height(c, resource)
  {
    var ps := ProducersFor(c.producers, resource);
    ViaMembers(c, resource, ps, chain);
    var p :| p in ps && chain in ChainsBy(c, p);
    NamedOnce(c.producers, p);
    UniformDependency(c, p);
    if p.dependency.Some? {
      AppendEachMembers(Chains(c, p.dependency.value), p.name, chain);
      var below :| below in Chains(c, p.dependency.value) && chain == below + [p.name];
      ChainFollows(c, p.dependency.value, below);
      FollowsUp(c, below, Trace(c, p.dependency.value), p.name, resource);
    }
  }

  lemma FollowsUp(c: Catalog, below: seq<string>, trace: seq<string>, name: string, resource: string)
    requires Follows(c, below, trace) && Makes(c, name) == Some(resource)
    ensures Follows(c, below + [name], [resource] + trace)
  {
  }

  lemma {:induction false} TraceDescends(c: Catalog, resource: string)
    requires Founded(c)
    ensures Trace(c, resource)[0] == resource
    ensures forall j :: 0 < j < |Trace(c, resource)| ==> Height(c, Trace(c, resource)[j]) < Height(c, resource)
    ensures forall i, j :: 0 <= i < j < |Trace(c, resource)| ==> Trace(c, resource)[i] != Trace(c, resource)[j]
    decreases Height(c, resource)
  {
    var dependency := DependencyOf(c, resource);
    if dependency.Some? {
      assert ProducersFor(c.producers, resource)[0] in ProducersFor(c.producers, resource);
      TraceDescends(c, dependency.value);
      var below := Trace(c, dependency.value);
      assert forall j :: 0 < j < |Trace(c, resource)| ==> Trace(c, resource)[j] == below[j - 1];
    }
  }

  // ---------------------------------------------------------------- no resource produced twice

  ghost predicate Known(c: Catalog, names: set<string>)
  {
    forall x :: x in names ==> Makes(c, x).Some?
  }

  /** Names that produce the same resource are the same. */
  ghost predicate OneEach(c: Catalog, names: set<string>)
  {
    forall x, y :: x in names && y in names && Makes(c, x) == Makes(c, y) ==> x == y
  }

  lemma {:induction false} ProducesOnceExactly(c: Catalog, names: set<string>)
    requires Known(c, names)
    ensures |Produced(c, names)| <= |names|
    ensures ProducesOnce(c, names) <==> OneEach(c, names)
    decreases |names|
  {
    if names != {} {
      var x :| x in names;
      var rest := names - {x};
      ProducesOnceExactly(c, rest);
      var made := Makes(c, x).value;
      assert Produced(c, names) == Produced(c, rest) + {made};
      assert OneEach(c, names) ==> made !in Produced(c, rest);
      assert made !in Produced(c, rest) && OneEach(c, rest) ==> OneEach(c, names) by {
        if made !in Produced(c, rest) && OneEach(c, rest) {
          assert forall y :: y in rest ==> Makes(c, y) != Some(made);
        }
      }
    }
  }

  // ---------------------------------------------------------------- choices of chains

  lemma {:induction false} PoolsAt(c: Catalog, resources: seq<string>)
    requires Founded(c)
    ensures |ChainPools(c, resources)| == |resources|
    ensures forall i :: 0 <= i < |resources| ==> ChainPools(c, resources)[i] == Chains(c, resources[i])
  {
    if resources != [] {
      PoolsAt(c, resources[1..]);
    }
  }

  /** One chain for each resource. */
  ghost predicate Chosen(c: Catalog, resources: seq<string>, choice: seq<seq<string>>)
    requires Founded(c)
  {
    |choice| == |resources| && forall i :: 0 <= i < |resources| ==> choice[i] in Chains(c, resources[i])
  }

  lemma ChosenIsPicked(c: Catalog, resources: seq<string>, choice: seq<seq<string>>)
    requires Founded(c)
    ensures choice in Product(ChainPools(c, resources)) <==> Chosen(c, resources, choice)
  {
    PoolsAt(c, resources);
    ProductMembers(ChainPools(c, resources), choice);
  }

  lemma {:induction false} FlattenMembers(choice: seq<seq<string>>)
    ensures forall x :: x in Flatten(choice) <==> exists i :: 0 <= i < |choice| && x in choice[i]
  {
    if choice != [] {
      FlattenMembers(choice[1..]);
      forall x ensures x in Flatten(choice) <==> exists i :: 0 <= i < |choice| && x in choice[i] {
        if i :| 0 <= i < |choice| && x in choice[i] && i > 0 {
          assert choice[i] == choice[1..][i - 1];
        }
        if x in Flatten(choice[1..]) {
          var i :| 0 <= i < |choice[1..]| && x in choice[1..][i];
          assert choice[i + 1] == choice[1..][i];
        }
      }
    }
  }

  lemma ChosenKnown(c: Catalog, resources: seq<string>, choice: seq<seq<string>>)
    requires Layered(c) && Chosen(c, resources, choice)
    ensures Known(c, AsSet(Flatten(choice)))
  {
    FlattenMembers(choice);
    forall x | x in AsSet(Flatten(choice)) ensures Makes(c, x).Some? {
      var i :| 0 <= i < |choice| && x in choice[i];
      ChainFollows(c, resources[i], choice[i]);
    }
  }

  /** Two chains of one resource within names of one producer each are the same chain. */
  lemma SameChain(c: Catalog, resource: string, a: seq<string>, b: seq<string>, names: set<string>)
    requires Founded(c) && UniqueNames(c) && Uniform(c) && a in Chains(c, resource) && b in Chains(c, resource)
    requires OneEach(c, names) && AsSet(a) <= names && AsSet(b) <= names
    ensures a == b
  {
    ChainFollows(c, resource, a);
    ChainFollows(c, resource, b);
    forall i | 0 <= i < |a| ensures a[i] == b[i] {
      assert a[i] in AsSet(a) && b[i] in AsSet(b);
    }
  }

  ghost function IndexOf(resources: seq<string>, r: string): (i: nat)
    requires r in resources
    ensures i < |resources| && resources[i] == r
  {
    var i :| 0 <= i < |resources| && resources[i] == r;
    i
  }

  /** The chains of one choice, looked up for other resources that it covers. */
  ghost function Rearranged(resources: seq<string>, choice: seq<seq<string>>, others: seq<string>): (r: seq<seq<string>>)
    requires |choice| == |resources| && forall o :: o in others ==> o in resources
    ensures |r| == |others|
  {
    seq(|others|, k requires 0 <= k < |others| => choice[IndexOf(resources, others[k])])
  }

  /** A choice within names of one producer each uses the same chain wherever a resource occurs. */
  lemma RearrangedSame(c: Catalog, resources: seq<string>, choice: seq<seq<string>>, others: seq<string>)
    requires Layered(c) && Chosen(c, resources, choice) && forall r :: r in others <==> r in resources
    requires forall i, j :: 0 <= i < |resources| && 0 <= j < |resources| && resources[i] == resources[j] ==> choice[i] == choice[j]
    ensures Chosen(c, others, Rearranged(resources, choice, others))
    ensures AsSet(Flatten(Rearranged(resources, choice, others))) == AsSet(Flatten(choice))
  {
    var other := Rearranged(resources, choice, others);
    FlattenMembers(choice);
    FlattenMembers(other);
    forall x ensures x in AsSet(Flatten(other)) <==> x in AsSet(Flatten(choice)) {
      if x in AsSet(Flatten(choice)) {
        var i :| 0 <= i < |choice| && x in choice[i];
        assert resources[i] in others;
        var k := IndexOf(others, resources[i]);
        assert other[k] == choice[IndexOf(resources, others[k])] == choice[i];
      }
      if x in AsSet(Flatten(other)) {
        var k :| 0 <= k < |other| && x in other[k];
        assert other[k] == choice[IndexOf(resources, others[k])];
      }
    }
  }

  lemma ConsistentChoice(c: Catalog, resources: seq<string>, choice: seq<seq<string>>)
    requires Layered(c) && Chosen(c, resources, choice) && OneEach(c, AsSet(Flatten(choice)))
    ensures forall i, j :: 0 <= i < |resources| && 0 <= j < |resources| && resources[i] == resources[j] ==> choice[i] == choice[j]
  {
    FlattenMembers(choice);
    forall i, j | 0 <= i < |resources| && 0 <= j < |resources| && resources[i] == resources[j] ensures choice[i] == choice[j] {
      assert AsSet(choice[i]) <= AsSet(Flatten(choice)) && AsSet(choice[j]) <= AsSet(Flatten(choice));
      SameChain(c, resources[i], choice[i], choice[j], AsSet(Flatten(choice)));
    }
  }

  /** A member of a chain produces something on the trace. */
  lemma OnTrace(c: Catalog, resource: string, chain: seq<string>, x: string)
    requires Founded(c) && UniqueNames(c) && Uniform(c) && chain in Chains(c, resource) && x in chain
    ensures Makes(c, x).Some? && Makes(c, x).value in Trace(c, resource)
  {
    ChainFollows(c, resource, chain);
    var u :| 0 <= u < |chain| && chain[u] == x;
    assert Trace(c, resource)[|chain| - 1 - u] in Trace(c, resource);
  }

  lemma OnceInChain(c: Catalog, resource: string, chain: seq<string>, x: string, y: string)
    requires Founded(c) && UniqueNames(c) && Uniform(c) && chain in Chains(c, resource)
    requires x in chain && y in chain && Makes(c, x) == Makes(c, y)
    ensures x == y
  {
    ChainFollows(c, resource, chain);
    TraceDescends(c, resource);
    var u :| 0 <= u < |chain| && chain[u] == x;
    var v :| 0 <= v < |chain| && chain[v] == y;
    assert Trace(c, resource)[|chain| - 1 - u] == Trace(c, resource)[|chain| - 1 - v];
  }

  /** Chains of needed resources, one for each, never produce anything twice. */
  lemma SeparateChainsProduceOnce(c: Catalog, resources: seq<string>, choice: seq<seq<string>>)
    requires Layered(c) && Chosen(c, resources, choice)
    requires forall r :: r in resources ==> Needed(c, r)
    requires forall i, j :: 0 <= i < |resources| && 0 <= j < |resources| && resources[i] == resources[j] ==> choice[i] == choice[j]
    ensures OneEach(c, AsSet(Flatten(choice)))
  {
    FlattenMembers(choice);
    var names := AsSet(Flatten(choice));
    forall x, y | x in names && y in names && Makes(c, x) == Makes(c, y) ensures x == y {
      var i :| 0 <= i < |choice| && x in choice[i];
      var j :| 0 <= j < |choice| && y in choice[j];
      OnTrace(c, resources[i], choice[i], x);
      OnTrace(c, resources[j], choice[j], y);
      assert Needed(c, resources[i]) && Needed(c, resources[j]);
      assert resources[i] == resources[j];
      OnceInChain(c, resources[i], choice[i], x, y);
    }
  }

  // ---------------------------------------------------------------- what the two searches list

  /** The resources required by a selection, in its order. */
  function Needs(selected: seq<Alternative>): seq<string>
  {
    if selected == [] then []
    else (if selected[0].resource.Some? then [selected[0].resource.value] else []) + Needs(selected[1..])
  }

  lemma {:induction false} NeedsMembers(selected: seq<Alternative>)
    ensures forall r :: r in Needs(selected) <==> exists a :: a in selected && a.resource == Some(r)
  {
    if selected != [] {
      NeedsMembers(selected[1..]);
      assert forall a :: a in selected <==> a == selected[0] || a in selected[1..];
    }
  }

  ghost predicate Holds(front: seq<(seq<string>, int)>, names: seq<string>)
  {
    exists f :: f in front && f.0 == names
  }

  lemma {:induction false} ExtendOneHolds(c: Catalog, existing: (seq<string>, int), chains: seq<seq<string>>, names: seq<string>)
    ensures Holds(ExtendOne(c, existing, chains), names) <==> exists chain :: chain in chains && names == existing.0 + chain
  {
    if chains != [] {
      var head := (existing.0 + chains[0], existing.1 + SumFirst(c.producers, chains[0]));
      var rest := ExtendOne(c, existing, chains[1..]);
      ExtendOneHolds(c, existing, chains[1..], names);
      assert forall f :: f in ExtendOne(c, existing, chains) <==> f == head || f in rest;
      assert forall chain :: chain in chains <==> chain == chains[0] || chain in chains[1..];
      if names == existing.0 + chains[0] {
        assert head in ExtendOne(c, existing, chains);
      }
    }
  }

  lemma {:induction false} ExtendAllHolds(c: Catalog, front: seq<(seq<string>, int)>, chains: seq<seq<string>>, names: seq<string>)
    ensures Holds(ExtendAll(c, front, chains), names)
       <==> exists f, chain :: f in front && chain in chains && names == f.0 + chain
  {
    if front != [] {
      ExtendAllHolds(c, front[1..], chains, names);
      ExtendOneHolds(c, front[0], chains, names);
      var first, rest := ExtendOne(c, front[0], chains), ExtendAll(c, front[1..], chains);
      assert forall f :: f in ExtendAll(c, front, chains) <==> f in first || f in rest;
      assert forall f :: f in front <==> f == front[0] || f in front[1..];
      if f, chain :| f in front && chain in chains && names == f.0 + chain {
        if f == front[0] {
          assert Holds(first, names);
        } else {
          assert Holds(rest, names);
        }
      }
    }
  }

  ghost predicate Extends(c: Catalog, front: seq<(seq<string>, int)>, needs: seq<string>, names: seq<string>)
    requires Founded(c)
  {
    exists f, choice :: f in front && Chosen(c, needs, choice) && names == f.0 + Flatten(choice)
  }

  /** The frontier holds every choice of chains appended to every entry. */
  lemma {:induction false} FrontierHolds(c: Catalog, front: seq<(seq<string>, int)>, selected: seq<Alternative>, names: seq<string>)
    requires Founded(c)
    ensures Holds(Frontier(c, front, selected), names) <==> Extends(c, front, Needs(selected), names)
    decreases |selected|
  {
    if selected == [] {
      FrontierEmpty(c, front, names);
    } else if selected[0].resource.None? {
      FrontierHolds(c, front, selected[1..], names);
      assert Needs(selected) == Needs(selected[1..]);
    } else {
      var chains := Chains(c, selected[0].resource.value);
      var next := ExtendAll(c, front, chains);
      FrontierHolds(c, next, selected[1..], names);
      ExtendsStep(c, front, selected[0].resource.value, Needs(selected[1..]), names);
      assert Needs(selected) == [selected[0].resource.value] + Needs(selected[1..]);
    }
  }

  lemma FrontierEmpty(c: Catalog, front: seq<(seq<string>, int)>, names: seq<string>)
    requires Founded(c)
    ensures Holds(front, names) <==> Extends(c, front, [], names)
  {
    if f :| f in front && f.0 == names {
      assert Chosen(c, [], []) && names == f.0 + Flatten([]);
    }
    if f, choice :| f in front && Chosen(c, [], choice) && names == f.0 + Flatten(choice) {
      assert choice == [] && f.0 == names;
    }
  }

  lemma ExtendsStep(c: Catalog, front: seq<(seq<string>, int)>, resource: string, needs: seq<string>, names: seq<string>)
    requires Founded(c)
    ensures Extends(c, ExtendAll(c, front, Chains(c, resource)), needs, names) <==> Extends(c, front, [resource] + needs, names)
  {
    if Extends(c, ExtendAll(c, front, Chains(c, resource)), needs, names) {
      ExtendedEarlier(c, front, resource, needs, names);
    }
    if Extends(c, front, [resource] + needs, names) {
      ExtendedLater(c, front, resource, needs, names);
    }
  }

  lemma Regroup<T>(a: seq<T>, b: seq<T>, d: seq<T>)
    ensures (a + b) + d == a + (b + d)
  {
  }

  lemma ExtendedEarlier(c: Catalog, front: seq<(seq<string>, int)>, resource: string, needs: seq<string>, names: seq<string>)
    requires Founded(c) && Extends(c, ExtendAll(c, front, Chains(c, resource)), needs, names)
    ensures Extends(c, front, [resource] + needs, names)
  {
    var chains := Chains(c, resource);
    var next := ExtendAll(c, front, chains);
    var e, choice :| e in next && Chosen(c, needs, choice) && names == e.0 + Flatten(choice);
    assert Holds(next, e.0);
    ExtendAllHolds(c, front, chains, e.0);
    var f, chain :| f in front && chain in chains && e.0 == f.0 + chain;
    ChosenCons(c, resource, needs, chain, choice);
    Regroup(f.0, chain, Flatten(choice));
  }

  lemma ExtendedLater(c: Catalog, front: seq<(seq<string>, int)>, resource: string, needs: seq<string>, names: seq<string>)
    requires Founded(c) && Extends(c, front, [resource] + needs, names)
    ensures Extends(c, ExtendAll(c, front, Chains(c, resource)), needs, names)
  {
    var chains := Chains(c, resource);
    var f, choice :| f in front && Chosen(c, [resource] + needs, choice) && names == f.0 + Flatten(choice);
    ChosenUncons(c, resource, needs, choice);
    ExtendAllHolds(c, front, chains, f.0 + choice[0]);
    var e :| e in ExtendAll(c, front, chains) && e.0 == f.0 + choice[0];
    Regroup(f.0, choice[0], Flatten(choice[1..]));
  }

  lemma ChosenCons(c: Catalog, resource: string, needs: seq<string>, chain: seq<string>, choice: seq<seq<string>>)
    requires Founded(c) && chain in Chains(c, resource) && Chosen(c, needs, choice)
    ensures Chosen(c, [resource] + needs, [chain] + choice) && Flatten([chain] + choice) == chain + Flatten(choice)
  {
    assert ([chain] + choice)[1..] == choice;
  }

  lemma ChosenUncons(c: Catalog, resource: string, needs: seq<string>, choice: seq<seq<string>>)
    requires Founded(c) && Chosen(c, [resource] + needs, choice)
    ensures choice != [] && choice[0] in Chains(c, resource) && Chosen(c, needs, choice[1..])
    ensures Flatten(choice) == choice[0] + Flatten(choice[1..])
  {
    assert ([resource] + needs)[0] == resource;
    forall i | 0 <= i < |needs| ensures choice[1..][i] in Chains(c, needs[i]) {
      assert ([resource] + needs)[i + 1] == needs[i] && choice[i + 1] == choice[1..][i];
    }
  }

  lemma {:induction false} PlansAtMembers(selected: seq<Alternative>, front: seq<(seq<string>, int)>, plan: Plan)
    ensures plan in PlansAt(selected, front)
       <==> plan.realizations == NamesOf(selected) && exists f :: f in front && f.0 == plan.producers && f.1 == plan.cost
  {
    if front != [] {
      PlansAtMembers(selected, front[1..], plan);
      assert forall f :: f in front <==> f == front[0] || f in front[1..];
    }
  }

  function StartOf(selected: seq<Alternative>): seq<(seq<string>, int)>
  {
    [([], SumSelected(selected))]
  }

  lemma {:induction false} NaiveOverMembers(c: Catalog, selections: seq<seq<Alternative>>, plan: Plan)
    requires Founded(c)
    ensures plan in NaiveOver(c, selections)
       <==> exists selected :: selected in selections && plan in PlansAt(selected, Frontier(c, StartOf(selected), selected))
  {
    if selections != [] {
      NaiveOverMembers(c, selections[1..], plan);
      assert forall s :: s in selections <==> s == selections[0] || s in selections[1..];
      assert NaiveOver(c, selections)
          == PlansAt(selections[0], Frontier(c, StartOf(selections[0]), selections[0])) + NaiveOver(c, selections[1..]);
    }
  }

  lemma {:induction false} SumFirstJoins(ps: seq<Producer>, a: seq<string>, b: seq<string>)
    ensures SumFirst(ps, a + b) == SumFirst(ps, a) + SumFirst(ps, b)
  {
    if a == [] {
      assert a + b == b;
    } else {
      SumFirstJoins(ps, a[1..], b);
      assert (a + b)[0] == a[0] && (a + b)[1..] == a[1..] + b;
    }
  }

  /** Every entry costs the base and, for each name it lists, the first producer of that name. */
  ghost predicate Priced(c: Catalog, base: int, front: seq<(seq<string>, int)>)
  {
    forall f :: f in front ==> f.1 == base + SumFirst(c.producers, f.0)
  }

  lemma {:induction false} ExtendOnePriced(c: Catalog, base: int, existing: (seq<string>, int), chains: seq<seq<string>>)
    requires existing.1 == base + SumFirst(c.producers, existing.0)
    ensures Priced(c, base, ExtendOne(c, existing, chains))
  {
    if chains != [] {
      ExtendOnePriced(c, base, existing, chains[1..]);
      SumFirstJoins(c.producers, existing.0, chains[0]);
    }
  }

  lemma {:induction false} ExtendAllPriced(c: Catalog, base: int, front: seq<(seq<string>, int)>, chains: seq<seq<string>>)
    requires Priced(c, base, front)
    ensures Priced(c, base, ExtendAll(c, front, chains))
  {
    if front != [] {
      ExtendOnePriced(c, base, front[0], chains);
      ExtendAllPriced(c, base, front[1..], chains);
    }
  }

  lemma {:induction false} FrontierPriced(c: Catalog, base: int, front: seq<(seq<string>, int)>, selected: seq<Alternative>)
    requires Founded(c) && Priced(c, base, front)
    ensures Priced(c, base, Frontier(c, front, selected))
    decreases |selected|
  {
    if selected == [] {
    } else if selected[0].resource.None? {
      FrontierPriced(c, base, front, selected[1..]);
    } else {
      ExtendAllPriced(c, base, front, Chains(c, selected[0].resource.value));
      FrontierPriced(c, base, ExtendAll(c, front, Chains(c, selected[0].resource.value)), selected[1..]);
    }
  }

  /** Some selection and one chain for each of its needs give these realizations and producers. */
  ghost predicate Combines(c: Catalog, selected: seq<Alternative>, choice: seq<seq<string>>)
    requires Founded(c)
  {
    selected in Product(ByIntent(c)) && Chosen(c, Needs(selected), choice)
  }

  lemma NaiveIsCombination(c: Catalog, plan: Plan) returns (selected: seq<Alternative>, choice: seq<seq<string>>)
    requires Founded(c) && plan in NaivePlans(c)
    ensures Combines(c, selected, choice) && plan.realizations == NamesOf(selected) && plan.producers == Flatten(choice)
    ensures plan.cost == SumSelected(selected) + SumFirst(c.producers, plan.producers)
  {
    NaiveOverMembers(c, Product(ByIntent(c)), plan);
    selected :| selected in Product(ByIntent(c)) && plan in PlansAt(selected, Frontier(c, StartOf(selected), selected));
    var front := Frontier(c, StartOf(selected), selected);
    FrontierPriced(c, SumSelected(selected), StartOf(selected), selected);
    PlansAtMembers(selected, front, plan);
    assert Holds(front, plan.producers);
    FrontierHolds(c, StartOf(selected), selected, plan.producers);
    var f, chosen :| f in StartOf(selected) && Chosen(c, Needs(selected), chosen) && plan.producers == f.0 + Flatten(chosen);
    choice := chosen;
    assert f.0 + Flatten(chosen) == Flatten(chosen);
  }

  lemma CombinationIsNaive(c: Catalog, selected: seq<Alternative>, choice: seq<seq<string>>) returns (plan: Plan)
    requires Founded(c) && Combines(c, selected, choice)
    ensures plan in NaivePlans(c) && plan.realizations == NamesOf(selected) && plan.producers == Flatten(choice)
    ensures plan.cost == SumSelected(selected) + SumFirst(c.producers, plan.producers)
  {
    FrontierPriced(c, SumSelected(selected), StartOf(selected), selected);
    var front := Frontier(c, StartOf(selected), selected);
    var start: (seq<string>, int) := ([], SumSelected(selected));
    assert start in StartOf(selected) && Flatten(choice) == start.0 + Flatten(choice);
    assert Extends(c, StartOf(selected), Needs(selected), Flatten(choice));
    FrontierHolds(c, StartOf(selected), selected, Flatten(choice));
    var f :| f in front && f.0 == Flatten(choice);
    plan := Plan(NamesOf(selected), f.0, f.1);
    PlansAtMembers(selected, front, plan);
    NaiveOverMembers(c, Product(ByIntent(c)), plan);
  }

  lemma {:induction false} MemoAtMembers(c: Catalog, selected: seq<Alternative>, choices: seq<seq<seq<string>>>, plan: Plan)
    ensures plan in MemoAt(c, selected, choices) <==> exists choice :: choice in choices && plan == MemoPlan(c, selected, choice)
  {
    if choices != [] {
      MemoAtMembers(c, selected, choices[1..], plan);
      assert forall x :: x in choices <==> x == choices[0] || x in choices[1..];
    }
  }

  lemma {:induction false} MemoOverMembers(c: Catalog, selections: seq<seq<Alternative>>, plan: Plan)
    requires Founded(c)
    ensures plan in MemoOver(c, selections) <==> exists selected :: selected in selections && plan in MemoFrom(c, selected)
  {
    if selections != [] {
      MemoOverMembers(c, selections[1..], plan);
      assert forall s :: s in selections <==> s == selections[0] || s in selections[1..];
    }
  }

  function SortedNeeds(selected: seq<Alternative>): seq<string>
  {
    SortNames(ResourcesOf(selected))
  }

  lemma MemoIsCombination(c: Catalog, plan: Plan) returns (selected: seq<Alternative>, choice: seq<seq<string>>)
    requires Founded(c) && plan in MemoPlans(c)
    ensures selected in Product(ByIntent(c)) && Chosen(c, SortedNeeds(selected), choice) && plan == MemoPlan(c, selected, choice)
  {
    MemoOverMembers(c, Product(ByIntent(c)), plan);
    selected :| selected in Product(ByIntent(c)) && plan in MemoFrom(c, selected);
    var choices := Product(ChainPools(c, SortedNeeds(selected)));
    MemoAtMembers(c, selected, choices, plan);
    choice :| choice in choices && plan == MemoPlan(c, selected, choice);
    ChosenIsPicked(c, SortedNeeds(selected), choice);
  }

  lemma CombinationIsMemo(c: Catalog, selected: seq<Alternative>, choice: seq<seq<string>>)
    requires Founded(c) && selected in Product(ByIntent(c)) && Chosen(c, SortedNeeds(selected), choice)
    ensures MemoPlan(c, selected, choice) in MemoPlans(c)
  {
    ChosenIsPicked(c, SortedNeeds(selected), choice);
    MemoAtMembers(c, selected, Product(ChainPools(c, SortedNeeds(selected))), MemoPlan(c, selected, choice));
    MemoOverMembers(c, Product(ByIntent(c)), MemoPlan(c, selected, choice));
  }

  // ---------------------------------------------------------------- shared-once costs

  lemma {:induction false} FirstCost(alternatives: seq<Alternative>, a: Alternative)
    requires a in alternatives && forall x, y :: x in alternatives && y in alternatives && x.name == y.name ==> x == y
    ensures FirstAlternativeCost(alternatives, a.name) == a.cost
  {
    if alternatives[0].name != a.name {
      FirstCost(alternatives[1..], a);
    }
  }

  lemma {:induction false} RealizationCosts(c: Catalog, selected: seq<Alternative>)
    requires UniqueNames(c) && forall a :: a in selected ==> a in c.alternatives
    ensures SumRealizations(c.alternatives, NamesOf(selected)) == SumSelected(selected)
  {
    if selected != [] {
      FirstCost(c.alternatives, selected[0]);
      assert NamesOf(selected)[1..] == NamesOf(selected[1..]);
      RealizationCosts(c, selected[1..]);
    }
  }

  lemma SelectedFromCatalog(c: Catalog, selected: seq<Alternative>)
    requires selected in Product(ByIntent(c))
    ensures forall a :: a in selected ==> a in c.alternatives
  {
    ProductMembers(ByIntent(c), selected);
    forall a | a in selected ensures a in c.alternatives {
      var i :| 0 <= i < |selected| && selected[i] == a;
      assert a in ByIntent(c)[i];
    }
  }

  lemma MemoIsNormalized(c: Catalog, selected: seq<Alternative>, choice: seq<seq<string>>)
    requires UniqueNames(c) && selected in Product(ByIntent(c))
    ensures MemoPlan(c, selected, choice) == Normalized(c, NamesOf(selected), AsSet(Flatten(choice)))
  {
    SelectedFromCatalog(c, selected);
    RealizationCosts(c, selected);
  }

  // ---------------------------------------------------------------- the refinement

  lemma SameNeeds(selected: seq<Alternative>)
    ensures forall r :: r in SortedNeeds(selected) <==> r in Needs(selected)
  {
    NeedsMembers(selected);
    assert forall r :: r in ResourcesOf(selected) <==> exists a :: a in selected && a.resource == Some(r);
  }

  lemma NaiveFoundByMemo(c: Catalog, plan: Plan)
    requires Layered(c) && plan in NaivePlans(c) && ProducesOnce(c, AsSet(plan.producers))
    ensures Normalized(c, plan.realizations, AsSet(plan.producers)) in MemoPlans(c)
  {
    var selected, choice := NaiveIsCombination(c, plan);
    ChosenKnown(c, Needs(selected), choice);
    ProducesOnceExactly(c, AsSet(Flatten(choice)));
    ConsistentChoice(c, Needs(selected), choice);
    SameNeeds(selected);
    RearrangedSame(c, Needs(selected), choice, SortedNeeds(selected));
    var other := Rearranged(Needs(selected), choice, SortedNeeds(selected));
    CombinationIsMemo(c, selected, other);
    MemoIsNormalized(c, selected, other);
  }

  lemma NeedsNeeded(c: Catalog, selected: seq<Alternative>)
    requires selected in Product(ByIntent(c))
    ensures forall r :: r in SortedNeeds(selected) ==> Needed(c, r)
  {
    SelectedFromCatalog(c, selected);
    NeedsMembers(selected);
    SameNeeds(selected);
    forall r | r in SortedNeeds(selected) ensures Needed(c, r) {
      var a :| a in selected && a.resource == Some(r);
      assert a in c.alternatives;
    }
  }

  lemma AscendingDistinct(names: seq<string>, i: nat, j: nat)
    requires Ascending(names) && i < |names| && j < |names| && names[i] == names[j]
    ensures i == j
  {
    BelowTotal(names[i], names[j]);
  }

  lemma MemoFoundByNaive(c: Catalog, plan: Plan)
    requires Layered(c) && plan in MemoPlans(c)
    ensures plan in CanonicalPlans(c, NaivePlans(c))
  {
    var selected, choice := MemoIsCombination(c, plan);
    var sorted := SortedNeeds(selected);
    forall i, j | 0 <= i < |sorted| && 0 <= j < |sorted| && sorted[i] == sorted[j] ensures choice[i] == choice[j] {
      AscendingDistinct(sorted, i, j);
    }
    NeedsNeeded(c, selected);
    SeparateChainsProduceOnce(c, sorted, choice);
    SameNeeds(selected);
    RearrangedSame(c, sorted, choice, Needs(selected));
    var other := Rearranged(sorted, choice, Needs(selected));
    ChosenKnown(c, sorted, choice);
    ProducesOnceExactly(c, AsSet(Flatten(choice)));
    var naive := CombinationIsNaive(c, selected, other);
    MemoIsNormalized(c, selected, choice);
  }

  /**
   * On every layered catalogue the memoised search finds exactly the canonical plans of the naive one,
   * with the same costs: every producer counted once however many needs share it.
   */
  lemma MemoRefinesNaive(c: Catalog)
    requires Layered(c)
    ensures Seen(MemoPlans(c)) == CanonicalPlans(c, NaivePlans(c))
  {
    forall plan ensures plan in Seen(MemoPlans(c)) <==> plan in CanonicalPlans(c, NaivePlans(c)) {
      if plan in MemoPlans(c) {
        MemoFoundByNaive(c, plan);
      }
      if plan in CanonicalPlans(c, NaivePlans(c)) {
        var naive :| naive in NaivePlans(c) && ProducesOnce(c, AsSet(naive.producers))
                     && plan == Normalized(c, naive.realizations, AsSet(naive.producers));
        NaiveFoundByMemo(c, naive);
      }
    }
  }
}

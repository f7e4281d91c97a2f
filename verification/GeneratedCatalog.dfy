/** The generated catalogues and why the two searches agree on all of them
    (experiments/candidate-discovery/step3_explosion.py, `generate_catalog`). */
module GeneratedCatalog {
  import opened Decimals
  import opened Explosion
  import opened ExplosionTheorems
  import opened Ordering

  // ---------------------------------------------------------------- names

  /** A colon ends the first part unambiguously. */
  lemma {:induction false} SplitAtColon(a: string, b: string, x: string, y: string)
    requires ':' !in a && ':' !in x && a + ":" + b == x + ":" + y
    ensures a == x && b == y
    decreases |a|
  {
    var left, right := a + ":" + b, x + ":" + y;
    if a == [] || x == [] {
      assert left[0] == right[0];
      assert left[1..] == right[1..];
    } else {
      assert left[0] == a[0] && right[0] == x[0];
      assert left[1..] == a[1..] + ":" + b && right[1..] == x[1..] + ":" + y;
      SplitAtColon(a[1..], b, x[1..], y);
      assert a == [a[0]] + a[1..] && x == [x[0]] + x[1..];
    }
  }

  function Pair(letter: char, first: nat, rest: string): string
  {
    [letter] + (Decimal(first) + ":" + rest)
  }

  lemma PairInjective(letter: char, m: nat, a: string, n: nat, b: string)
    requires Pair(letter, m, a) == Pair(letter, n, b)
    ensures m == n && a == b
  {
    DecimalNonempty(m);
    DecimalNonempty(n);
    assert Pair(letter, m, a)[1..] == Decimal(m) + ":" + a && Pair(letter, n, b)[1..] == Decimal(n) + ":" + b;
    SplitAtColon(Decimal(m), a, Decimal(n), b);
    DecimalInjective(m, n);
  }

  function ResourceName(group: nat, depth: nat): string
  {
    Pair('r', group, Decimal(depth))
  }

  lemma ResourceInjective(g: nat, d: nat, g': nat, d': nat)
    requires ResourceName(g, d) == ResourceName(g', d')
    ensures g == g' && d == d'
  {
    PairInjective('r', g, Decimal(d), g', Decimal(d'));
    DecimalInjective(d, d');
  }

  function ProducerName(group: nat, depth: nat, index: nat): string
  {
    Pair('p', group, Decimal(depth) + ":" + Decimal(index))
  }

  lemma ProducerInjective(g: nat, d: nat, k: nat, g': nat, d': nat, k': nat)
    requires ProducerName(g, d, k) == ProducerName(g', d', k')
    ensures g == g' && d == d' && k == k'
  {
    PairInjective('p', g, Decimal(d) + ":" + Decimal(k), g', Decimal(d') + ":" + Decimal(k'));
    DecimalNonempty(d);
    DecimalNonempty(d');
    SplitAtColon(Decimal(d), Decimal(k), Decimal(d'), Decimal(k'));
    DecimalInjective(d, d');
    DecimalInjective(k, k');
  }

  function AlternativeName(intent: nat, index: nat): string
  {
    Pair('a', intent, Decimal(index))
  }

  lemma AlternativeInjective(i: nat, k: nat, i': nat, k': nat)
    requires AlternativeName(i, k) == AlternativeName(i', k')
    ensures i == i' && k == k'
  {
    PairInjective('a', i, Decimal(k), i', Decimal(k'));
    DecimalInjective(k, k');
  }

  // ---------------------------------------------------------------- generation

  datatype Parameters = Parameters(goals: int, alternatives: int, depth: int, producers: int, sharing: int)

  predicate Acceptable(q: Parameters)
  {
    1 <= q.goals && 1 <= q.alternatives && 1 <= q.producers && 0 <= q.depth
  }

  function Sharing(q: Parameters): (s: nat)
    ensures 1 <= s
  {
    var least := if q.sharing < q.goals then q.sharing else q.goals;
    if least < 1 then 1 else least
  }

  function Groups(q: Parameters): nat
    requires Acceptable(q)
  {
    (q.goals + Sharing(q) - 1) / Sharing(q)
  }

  function GroupOf(q: Parameters, intent: nat): nat
  {
    intent / Sharing(q)
  }

  /** Alternative zero is direct; the others use the resource of their group. */
  function AlternativeAt(q: Parameters, intent: nat, index: nat): Alternative
    requires Acceptable(q)
  {
    Alternative(AlternativeName(intent, index), "i" + Decimal(intent),
                if index == 0 then None else Some(ResourceName(GroupOf(q, intent), q.depth)), 10 + index)
  }

  function ProducerAt(group: nat, depth: nat, index: nat): Producer
  {
    Producer(ProducerName(group, depth, index), ResourceName(group, depth),
             if depth == 0 then None else Some(ResourceName(group, depth - 1)), 3 + index, [])
  }

  ghost predicate IsAlternative(q: Parameters, goals: nat, a: Alternative)
    requires Acceptable(q)
  {
    exists i: nat, k: nat :: i < goals && k < q.alternatives && a == AlternativeAt(q, i, k)
  }

  ghost predicate IsProducer(q: Parameters, groups: nat, p: Producer)
    requires Acceptable(q)
  {
    exists g: nat, d: nat, k: nat :: g < groups && d <= q.depth && k < q.producers && p == ProducerAt(g, d, k)
  }

  function AlternativesOf(q: Parameters, intent: nat, n: nat): seq<Alternative>
    requires Acceptable(q)
  {
    if n == 0 then [] else AlternativesOf(q, intent, n - 1) + [AlternativeAt(q, intent, n - 1)]
  }

  function AllAlternatives(q: Parameters, n: nat): seq<Alternative>
    requires Acceptable(q)
  {
    if n == 0 then [] else AllAlternatives(q, n - 1) + AlternativesOf(q, n - 1, q.alternatives)
  }

  function ProducersOf(group: nat, depth: nat, n: nat): seq<Producer>
  {
    if n == 0 then [] else ProducersOf(group, depth, n - 1) + [ProducerAt(group, depth, n - 1)]
  }

  function GroupProducers(q: Parameters, group: nat, n: nat): seq<Producer>
    requires Acceptable(q)
  {
    if n == 0 then [] else GroupProducers(q, group, n - 1) + ProducersOf(group, n - 1, q.producers)
  }

  function AllProducers(q: Parameters, n: nat): seq<Producer>
    requires Acceptable(q)
  {
    if n == 0 then [] else AllProducers(q, n - 1) + GroupProducers(q, n - 1, q.depth + 1)
  }

  function Intents(n: nat): seq<string>
  {
    if n == 0 then [] else Intents(n - 1) + ["i" + Decimal(n - 1)]
  }

  function GeneratedFor(q: Parameters): Catalog
    requires Acceptable(q)
  {
    Catalog(AllAlternatives(q, q.goals), AllProducers(q, Groups(q)), Intents(q.goals))
  }

  /** A catalogue all of whose entries are generated ones. */
  ghost predicate Generated(q: Parameters, c: Catalog)
    requires Acceptable(q)
  {
    && (forall a :: a in c.alternatives ==> IsAlternative(q, q.goals, a))
    && forall p :: p in c.producers ==> IsProducer(q, Groups(q), p)
  }

  lemma {:induction false} AlternativesMembers(q: Parameters, intent: nat, n: nat)
    requires Acceptable(q)
    ensures forall a :: a in AlternativesOf(q, intent, n) ==> exists k: nat :: k < n && a == AlternativeAt(q, intent, k)
  {
    if n > 0 {
      AlternativesMembers(q, intent, n - 1);
    }
  }

  lemma {:induction false} AllAlternativesMembers(q: Parameters, n: nat)
    requires Acceptable(q)
    ensures forall a :: a in AllAlternatives(q, n) ==> IsAlternative(q, n, a)
  {
    if n > 0 {
      AllAlternativesMembers(q, n - 1);
      AlternativesMembers(q, n - 1, q.alternatives);
      forall a | a in AllAlternatives(q, n) ensures IsAlternative(q, n, a) {
        if a in AllAlternatives(q, n - 1) {
          assert IsAlternative(q, n - 1, a);
        }
      }
    }
  }

  lemma {:induction false} ProducersMembers(group: nat, depth: nat, n: nat)
    ensures forall p :: p in ProducersOf(group, depth, n) ==> exists k: nat :: k < n && p == ProducerAt(group, depth, k)
  {
    if n > 0 {
      ProducersMembers(group, depth, n - 1);
    }
  }

  lemma {:induction false} GroupMembers(q: Parameters, group: nat, n: nat)
    requires Acceptable(q)
    ensures forall p :: p in GroupProducers(q, group, n) ==>
              exists d: nat, k: nat :: d < n && k < q.producers && p == ProducerAt(group, d, k)
  {
    if n > 0 {
      GroupMembers(q, group, n - 1);
      ProducersMembers(group, n - 1, q.producers);
    }
  }

  lemma {:induction false} AllProducersMembers(q: Parameters, n: nat)
    requires Acceptable(q)
    ensures forall p :: p in AllProducers(q, n) ==> IsProducer(q, n, p)
  {
    if n > 0 {
      AllProducersMembers(q, n - 1);
      GroupMembers(q, n - 1, q.depth + 1);
      forall p | p in AllProducers(q, n) ensures IsProducer(q, n, p) {
        if p in AllProducers(q, n - 1) {
          assert IsProducer(q, n - 1, p);
        }
      }
    }
  }

  // ---------------------------------------------------------------- generated catalogues are layered

  lemma GeneratedUnique(q: Parameters, c: Catalog)
    requires Acceptable(q) && Generated(q, c)
    ensures UniqueNames(c) && Uniform(c)
  {
    forall x, y | x in c.producers && y in c.producers
      ensures (x.name == y.name ==> x == y) && (x.resource == y.resource ==> x.dependency == y.dependency)
    {
      var g: nat, d: nat, k: nat :| g < Groups(q) && d <= q.depth && k < q.producers && x == ProducerAt(g, d, k);
      var g': nat, d': nat, k': nat :| g' < Groups(q) && d' <= q.depth && k' < q.producers && y == ProducerAt(g', d', k');
      if x.name == y.name {
        ProducerInjective(g, d, k, g', d', k');
      }
      if x.resource == y.resource {
        ResourceInjective(g, d, g', d');
      }
    }
    forall x, y | x in c.alternatives && y in c.alternatives && x.name == y.name ensures x == y {
      var i: nat, k: nat :| i < q.goals && k < q.alternatives && x == AlternativeAt(q, i, k);
      var i': nat, k': nat :| i' < q.goals && k' < q.alternatives && y == AlternativeAt(q, i', k');
      AlternativeInjective(i, k, i', k');
    }
  }

  ghost function DepthOf(r: string): nat
  {
    if exists g: nat, d: nat :: r == ResourceName(g, d) then
      var g: nat, d: nat :| r == ResourceName(g, d);
      d
    else 0
  }

  lemma DepthAt(g: nat, d: nat)
    ensures DepthOf(ResourceName(g, d)) == d
  {
    var r := ResourceName(g, d);
    forall g': nat, d': nat | r == ResourceName(g', d') ensures d' == d {
      ResourceInjective(g', d', g, d);
    }
  }

  lemma DependencyIsLower(q: Parameters, p: Producer)
    requires Acceptable(q) && IsProducer(q, Groups(q), p) && p.dependency.Some?
    ensures DepthOf(p.dependency.value) < DepthOf(p.resource)
  {
    var g: nat, d: nat, k: nat :| g < Groups(q) && d <= q.depth && k < q.producers && p == ProducerAt(g, d, k);
    DepthAt(g, d);
    DepthAt(g, d - 1);
  }

  function Named(c: Catalog): set<string>
  {
    (set p | p in c.producers :: p.resource) + set p | p in c.producers && p.dependency.Some? :: p.dependency.value
  }

  lemma GeneratedFounded(q: Parameters, c: Catalog)
    requires Acceptable(q) && Generated(q, c)
    ensures Founded(c)
  {
    var rank := map r | r in Named(c) :: DepthOf(r);
    forall p | p in c.producers && p.dependency.Some? ensures DepthOf(p.dependency.value) < DepthOf(p.resource) {
      DependencyIsLower(q, p);
    }
    assert IsRank(c, rank);
  }

  ghost predicate InGroup(r: string, group: nat)
  {
    exists d: nat :: r == ResourceName(group, d)
  }

  /** A generated producer needs the resource below its own. */
  lemma NeedsBelow(q: Parameters, c: Catalog, group: nat, depth: nat, p: Producer)
    requires Acceptable(q) && Generated(q, c) && p in c.producers && p.resource == ResourceName(group, depth)
    ensures p.dependency == if depth == 0 then None else Some(ResourceName(group, depth - 1))
  {
    var g: nat, d: nat, k: nat :| g < Groups(q) && d <= q.depth && k < q.producers && p == ProducerAt(g, d, k);
    ResourceInjective(g, d, group, depth);
  }

  /** Everything a resource is built upon belongs to its group. */
  lemma {:induction false} TraceInGroup(q: Parameters, c: Catalog, group: nat, depth: nat)
    requires Acceptable(q) && Generated(q, c) && Founded(c)
    ensures forall r :: r in Trace(c, ResourceName(group, depth)) ==> InGroup(r, group)
    decreases depth
  {
    var resource := ResourceName(group, depth);
    var ps := ProducersFor(c.producers, resource);
    if ps != [] {
      assert ps[0] in ps;
      NeedsBelow(q, c, group, depth, ps[0]);
      if depth > 0 {
        TraceInGroup(q, c, group, depth - 1);
      }
    }
    assert InGroup(resource, group);
  }

  lemma NeededIsTop(q: Parameters, c: Catalog, r: string) returns (group: nat)
    requires Acceptable(q) && Generated(q, c) && Needed(c, r)
    ensures r == ResourceName(group, q.depth)
  {
    var a :| a in c.alternatives && a.resource == Some(r);
    var i: nat, k: nat :| i < q.goals && k < q.alternatives && a == AlternativeAt(q, i, k);
    group := GroupOf(q, i);
  }

  lemma GeneratedApart(q: Parameters, c: Catalog)
    requires Acceptable(q) && Generated(q, c) && Founded(c)
    ensures Apart(c)
  {
    forall a, b, r | Needed(c, a) && Needed(c, b) && r in Trace(c, a) && r in Trace(c, b) ensures a == b {
      var g := NeededIsTop(q, c, a);
      var g' := NeededIsTop(q, c, b);
      TraceInGroup(q, c, g, q.depth);
      TraceInGroup(q, c, g', q.depth);
      var d: nat :| r == ResourceName(g, d);
      var d': nat :| r == ResourceName(g', d');
      ResourceInjective(g, d, g', d');
    }
  }

  /** Every generated catalogue is layered, so the two searches find the same plans on it at the same costs. */
  lemma SearchesAgree(q: Parameters)
    requires Acceptable(q)
    ensures Layered(GeneratedFor(q))
    ensures Seen(MemoPlans(GeneratedFor(q))) == CanonicalPlans(GeneratedFor(q), NaivePlans(GeneratedFor(q)))
  {
    var c := GeneratedFor(q);
    AllAlternativesMembers(q, q.goals);
    AllProducersMembers(q, Groups(q));
    GeneratedUnique(q, c);
    GeneratedFounded(q, c);
    GeneratedApart(q, c);
    MemoRefinesNaive(c);
  }

  // ---------------------------------------------------------------- what is generated, place by place

  lemma {:induction false} AlternativesOfAt(q: Parameters, intent: nat, n: nat, k: nat)
    requires Acceptable(q)
    ensures |AlternativesOf(q, intent, n)| == n
    ensures k < n ==> AlternativesOf(q, intent, n)[k] == AlternativeAt(q, intent, k)
  {
    if n > 0 {
      AlternativesOfAt(q, intent, n - 1, if k < n - 1 then k else 0);
    }
  }

  /** Where block `n` begins when every block has `size` entries. */
  function Start(n: nat, size: nat): nat
  {
    if n == 0 then 0 else Start(n - 1, size) + size
  }

  lemma {:induction false} StartIsProduct(n: nat, size: nat)
    ensures Start(n, size) == n * size
  {
    if n > 0 {
      StartIsProduct(n - 1, size);
      assert n * size == (n - 1) * size + size;
    }
  }

  lemma {:induction false} AlternativesAt(q: Parameters, n: nat, i: nat, k: nat)
    requires Acceptable(q) && k < q.alternatives
    ensures |AllAlternatives(q, n)| == Start(n, q.alternatives)
    ensures i < n ==> Start(i, q.alternatives) + k < Start(n, q.alternatives)
    ensures i < n ==> AllAlternatives(q, n)[Start(i, q.alternatives) + k] == AlternativeAt(q, i, k)
  {
    if n > 0 {
      AlternativesAt(q, n - 1, i, k);
      AlternativesOfAt(q, n - 1, q.alternatives, k);
    }
  }

  lemma {:induction false} ProducersOfAt(group: nat, depth: nat, n: nat, k: nat)
    ensures |ProducersOf(group, depth, n)| == n
    ensures k < n ==> ProducersOf(group, depth, n)[k] == ProducerAt(group, depth, k)
  {
    if n > 0 {
      ProducersOfAt(group, depth, n - 1, if k < n - 1 then k else 0);
    }
  }

  lemma {:induction false} GroupProducersAt(q: Parameters, group: nat, n: nat, d: nat, k: nat)
    requires Acceptable(q) && k < q.producers
    ensures |GroupProducers(q, group, n)| == Start(n, q.producers)
    ensures d < n ==> Start(d, q.producers) + k < Start(n, q.producers)
    ensures d < n ==> GroupProducers(q, group, n)[Start(d, q.producers) + k] == ProducerAt(group, d, k)
  {
    if n > 0 {
      GroupProducersAt(q, group, n - 1, d, k);
      ProducersOfAt(group, n - 1, q.producers, k);
    }
  }

  /** How many producers a group has. */
  function GroupSize(q: Parameters): nat
    requires Acceptable(q)
  {
    Start(q.depth + 1, q.producers)
  }

  lemma {:induction false} GroupProducersCount(q: Parameters, group: nat, n: nat)
    requires Acceptable(q)
    ensures |GroupProducers(q, group, n)| == Start(n, q.producers)
  {
    if n > 0 {
      GroupProducersCount(q, group, n - 1);
      ProducersOfAt(group, n - 1, q.producers, 0);
    }
  }

  lemma {:induction false} ProducersCount(q: Parameters, n: nat, size: nat)
    requires Acceptable(q) && size == GroupSize(q)
    ensures |AllProducers(q, n)| == Start(n, size)
  {
    if n > 0 {
      ProducersCount(q, n - 1, size);
      GroupProducersCount(q, n - 1, q.depth + 1);
    }
  }

  /** The last group stands behind the others. */
  lemma LastGroupAt(q: Parameters, n: nat, at: nat, within: nat)
    requires Acceptable(q) && n > 0 && at == |AllProducers(q, n - 1)| && within < |GroupProducers(q, n - 1, q.depth + 1)|
    ensures at + within < |AllProducers(q, n)| && AllProducers(q, n)[at + within] == GroupProducers(q, n - 1, q.depth + 1)[within]
  {
  }

  lemma EarlierGroupAt(q: Parameters, n: nat, i: nat)
    requires Acceptable(q) && n > 0 && i < |AllProducers(q, n - 1)|
    ensures i < |AllProducers(q, n)| && AllProducers(q, n)[i] == AllProducers(q, n - 1)[i]
  {
  }

  lemma {:induction false} ProducersAt(q: Parameters, n: nat, size: nat, g: nat, within: nat, p: Producer)
    requires Acceptable(q) && size == GroupSize(q) && g < n && within < size
    requires |GroupProducers(q, g, q.depth + 1)| == size && GroupProducers(q, g, q.depth + 1)[within] == p
    ensures |AllProducers(q, n)| == Start(n, size) && Start(g, size) + within < Start(n, size)
    ensures AllProducers(q, n)[Start(g, size) + within] == p
  {
    ProducersCount(q, n, size);
    if g == n - 1 {
      ProducersCount(q, g, size);
      LastGroupAt(q, n, Start(g, size), within);
    } else {
      ProducersAt(q, n - 1, size, g, within, p);
      EarlierGroupAt(q, n, Start(g, size) + within);
    }
  }

  lemma {:induction false} IntentsAt(n: nat, i: nat)
    ensures |Intents(n)| == n && (i < n ==> Intents(n)[i] == "i" + Decimal(i))
  {
    if n > 0 {
      IntentsAt(n - 1, if i < n - 1 then i else 0);
    }
  }

  /** The sharing asked for, but at least 1 and at most one group for all goals. */
  predicate SharesBy(q: Parameters, sharing: int)
  {
    if q.sharing < 1 then sharing == 1 else if q.goals < q.sharing then sharing == q.goals else sharing == q.sharing
  }

  lemma SharingExactly(q: Parameters, sharing: nat)
    requires Acceptable(q) && SharesBy(q, sharing)
    ensures Sharing(q) == sharing
  {
  }

  lemma Divided(i: nat, sharing: nat)
    requires 1 <= sharing
    ensures i / sharing * sharing <= i < i / sharing * sharing + sharing
  {
  }

  lemma NamesSpelled(group: nat, depth: nat, index: nat)
    ensures AlternativeName(group, index) == "a" + (Decimal(group) + ":" + Decimal(index))
    ensures ResourceName(group, depth) == "r" + (Decimal(group) + ":" + Decimal(depth))
    ensures ProducerName(group, depth, index) == "p" + (Decimal(group) + ":" + (Decimal(depth) + ":" + Decimal(index)))
  {
  }

  /** Alternative k of intent i: direct for k = 0, otherwise on the deepest resource of the intent's group, and each
      group has `sharing` consecutive intents. */
  lemma AlternativeTold(q: Parameters, sharing: nat, i: nat, k: nat) returns (group: nat)
    requires Acceptable(q) && SharesBy(q, sharing) && i < q.goals && k < q.alternatives
    ensures group * sharing <= i < group * sharing + sharing
    ensures var c := GeneratedFor(q);
            && |c.intents| == q.goals && c.intents[i] == "i" + Decimal(i)
            && |c.alternatives| == Start(q.goals, q.alternatives) && Start(i, q.alternatives) + k < Start(q.goals, q.alternatives)
            && c.alternatives[Start(i, q.alternatives) + k]
               == Alternative("a" + (Decimal(i) + ":" + Decimal(k)), "i" + Decimal(i),
                              if k == 0 then None else Some("r" + (Decimal(group) + ":" + Decimal(q.depth))), 10 + k)
  {
    group := GroupOf(q, i);
    AlternativesAt(q, q.goals, i, k);
    IntentsAt(q.goals, i);
    GroupBounds(q, sharing, i);
    NamesSpelled(i, q.depth, k);
    NamesSpelled(group, q.depth, k);
  }

  lemma GroupBounds(q: Parameters, sharing: nat, i: nat)
    requires Acceptable(q) && SharesBy(q, sharing)
    ensures GroupOf(q, i) * sharing <= i < GroupOf(q, i) * sharing + sharing
  {
    SharingExactly(q, sharing);
    Divided(i, sharing);
  }

  lemma GroupsCount(q: Parameters, sharing: nat)
    requires Acceptable(q) && SharesBy(q, sharing)
    ensures Groups(q) * sharing - sharing < q.goals <= Groups(q) * sharing
  {
    SharingExactly(q, sharing);
    Divided(q.goals + sharing - 1, sharing);
  }

  /** Producer k of depth d in group g: it makes the resource of its depth from the one below; there are just enough
      groups for all intents. */
  lemma ProducerTold(q: Parameters, sharing: nat, g: nat, d: nat, k: nat) returns (groups: nat)
    requires Acceptable(q) && SharesBy(q, sharing) && d <= q.depth && k < q.producers
    ensures groups * sharing - sharing < q.goals <= groups * sharing
    ensures var c := GeneratedFor(q);
            && |c.producers| == Start(groups, GroupSize(q))
            && (g < groups ==>
                  && Start(g, GroupSize(q)) + (Start(d, q.producers) + k) < |c.producers|
                  && c.producers[Start(g, GroupSize(q)) + (Start(d, q.producers) + k)]
                     == Producer("p" + (Decimal(g) + ":" + (Decimal(d) + ":" + Decimal(k))), "r" + (Decimal(g) + ":" + Decimal(d)),
                                 if d == 0 then None else Some("r" + (Decimal(g) + ":" + Decimal(d - 1))), 3 + k, []))
  {
    groups := Groups(q);
    GroupsCount(q, sharing);
    ProducersCount(q, groups, GroupSize(q));
    if g < groups {
      GroupProducersAt(q, g, q.depth + 1, d, k);
      ProducersAt(q, groups, GroupSize(q), g, Start(d, q.producers) + k, ProducerAt(g, d, k));
    }
    NamesSpelled(g, d, k);
    if d > 0 {
      NamesSpelled(g, d - 1, k);
    }
  }

  // ---------------------------------------------------------------- the loops

  method AppendAlternatives(q: Parameters, before: seq<Alternative>, intent: nat) returns (alternatives: seq<Alternative>)
    requires Acceptable(q)
    ensures alternatives == before + AlternativesOf(q, intent, q.alternatives)
  {
    alternatives := before;
    for k := 0 to q.alternatives
      invariant alternatives == before + AlternativesOf(q, intent, k)
    {
      alternatives := alternatives + [AlternativeAt(q, intent, k)];
    }
  }

  method AppendProducers(q: Parameters, before: seq<Producer>, group: nat) returns (producers: seq<Producer>)
    requires Acceptable(q)
    ensures producers == before + GroupProducers(q, group, q.depth + 1)
  {
    producers := before;
    for d := 0 to q.depth + 1
      invariant producers == before + GroupProducers(q, group, d)
    {
      ghost var start := producers;
      for k := 0 to q.producers
        invariant producers == start + ProducersOf(group, d, k)
      {
        producers := producers + [ProducerAt(group, d, k)];
      }
    }
  }

  /** `generate_catalog`. */
  method GenerateCatalog(q: Parameters) returns (c: Option<Catalog>)
    ensures c == if Acceptable(q) then Some(GeneratedFor(q)) else None
  {
    if !Acceptable(q) {
      return None;
    }
    var intents := [];
    var alternatives := [];
    for i := 0 to q.goals
      invariant intents == Intents(i) && alternatives == AllAlternatives(q, i)
    {
      intents := intents + ["i" + Decimal(i)];
      alternatives := AppendAlternatives(q, alternatives, i);
    }
    var producers := [];
    for g := 0 to Groups(q)
      invariant producers == AllProducers(q, g)
    {
      producers := AppendProducers(q, producers, g);
    }
    return Some(Catalog(alternatives, producers, intents));
  }
}

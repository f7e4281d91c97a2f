/** Depth-first listings of everything that some names depend on (the nested `visit` functions of
    src/atlas/store.py and src/atlas/problem.py). */
module Traversal {
  import opened Graph
  import opened Ordering
  import opened Rules

  ghost predicate ReachFrom(g: Digraph, starts: seq<string>, x: string)
  {
    exists s :: s in starts && Reach(g, s, x)
  }

  /** `listed` enumerates `seen` without repetition. */
  ghost predicate Lists(listed: seq<string>, seen: set<string>)
  {
    DistinctNames(listed) && forall x :: x in listed <==> x in seen
  }

  lemma ListsMore(listed: seq<string>, seen: set<string>, x: string)
    requires Lists(listed, seen) && x !in seen
    ensures Lists(listed + [x], seen + {x})
  {
  }

  /** Every node of `later` that is not in `earlier` has all its successors in `later`. */
  ghost predicate Explored(g: Digraph, earlier: set<string>, later: set<string>)
  {
    forall y, z :: y in later && y !in earlier && Edge(g, y, z) ==> z in later
  }

  ghost predicate Fruitful(g: Digraph, permitted: string -> bool, x: string, earlier: set<string>, later: set<string>)
  {
    && earlier <= later
    && (forall y :: y in later && y !in earlier ==> permitted(y) && Reach(g, x, y))
    && Explored(g, earlier, later)
  }

  ghost function Universe(g: Digraph, starts: seq<string>): set<string>
  {
    (set s | s in starts) + g.Keys + set x, y | x in g && y in g[x] :: y
  }

  ghost predicate Ready(g: Digraph, seen: set<string>, listed: seq<string>, all: set<string>)
  {
    Closed(g, all) && seen <= all && Lists(listed, seen)
  }

  ghost predicate Blocked(g: Digraph, permitted: string -> bool, x: string)
  {
    exists y :: Reach(g, x, y) && !permitted(y)
  }

  lemma BlockedStep(g: Digraph, permitted: string -> bool, x: string, next: string)
    requires Edge(g, x, next) && Blocked(g, permitted, next)
    ensures Blocked(g, permitted, x)
  {
    var y :| Reach(g, next, y) && !permitted(y);
    ReachStep(g, x, next, y);
  }

  /** Lists `x` and what it reaches beyond what was seen; stops at the first name that is not permitted. */
  method Visit(g: Digraph, permitted: string -> bool, x: string, seen: set<string>, listed: seq<string>, ghost all: set<string>)
    returns (ok: bool, later: set<string>, r: seq<string>)
    requires Ready(g, seen, listed, all) && x in all
    ensures if ok then Fruitful(g, permitted, x, seen, later) && x in later && Ready(g, later, r, all)
            else Blocked(g, permitted, x)
    decreases |all - seen|, 0
  {
    ReachSelf(g, x);
    if x in seen {
      return true, seen, listed;
    }
    if !permitted(x) {
      return false, seen, listed;
    }
    ListsMore(listed, seen, x);
    Shrinks(all, seen, seen + {x}, x);
    ok, later, r := VisitSuccessors(g, permitted, x, if x in g then g[x] else [], seen + {x}, listed + [x], all);
    if ok {
      FruitfulClose(g, permitted, x, seen, later);
    }
  }

  method VisitSuccessors(g: Digraph, permitted: string -> bool, x: string, successors: seq<string>,
                         seen: set<string>, listed: seq<string>, ghost all: set<string>)
    returns (ok: bool, later: set<string>, r: seq<string>)
    requires Ready(g, seen, listed, all) && x in all && forall y :: y in successors <==> Edge(g, x, y)
    ensures if ok then Fruitful(g, permitted, x, seen, later) && (forall y :: Edge(g, x, y) ==> y in later) && Ready(g, later, r, all)
            else Blocked(g, permitted, x)
    decreases |all - seen|, 1
  {
    later, r := seen, listed;
    for i := 0 to |successors|
      invariant Ready(g, later, r, all) && Fruitful(g, permitted, x, seen, later)
      invariant AllSeen(successors, i, later)
    {
      ghost var before := later;
      assert Edge(g, x, successors[i]);
      Grows(all, seen, later);
      ok, later, r := Visit(g, permitted, successors[i], later, r, all);
      if !ok {
        BlockedStep(g, permitted, x, successors[i]);
        return;
      }
      FruitfulStep(g, permitted, x, successors[i], seen, before, later);
      SeenOneMore(successors, i, before, later);
    }
    ok := true;
    forall y | Edge(g, x, y) ensures y in later {
      assert y in successors;
    }
  }

  ghost predicate AllSeen(names: seq<string>, n: nat, seen: set<string>)
  {
    n <= |names| && forall j :: 0 <= j < n ==> names[j] in seen
  }

  lemma SeenOneMore(names: seq<string>, n: nat, before: set<string>, later: set<string>)
    requires AllSeen(names, n, before) && before <= later && n < |names| && names[n] in later
    ensures AllSeen(names, n + 1, later)
  {
  }

  lemma Grows(all: set<string>, seen: set<string>, later: set<string>)
    requires seen <= later
    ensures |all - later| <= |all - seen|
  {
    assert all - seen == (all - later) + ((all - seen) - (all - later));
  }

  lemma Shrinks(all: set<string>, seen: set<string>, later: set<string>, x: string)
    requires seen + {x} <= later && x !in seen && x in all
    ensures |all - later| < |all - seen|
  {
    assert all - later <= (all - seen) - {x};
    assert x in all - seen;
    Smaller(all - later, all - seen, x);
  }

  lemma Smaller(a: set<string>, b: set<string>, x: string)
    requires a <= b - {x} && x in b
    ensures |a| < |b|
  {
    assert b == (b - a) + a;
    assert x in b - a;
  }

  lemma FruitfulStep(g: Digraph, permitted: string -> bool, x: string, next: string,
                     begun: set<string>, before: set<string>, later: set<string>)
    requires Edge(g, x, next) && Fruitful(g, permitted, x, begun, before) && Fruitful(g, permitted, next, before, later)
    ensures Fruitful(g, permitted, x, begun, later)
  {
    forall y | y in later && y !in before ensures Reach(g, x, y) {
      ReachStep(g, x, next, y);
    }
  }

  lemma FruitfulClose(g: Digraph, permitted: string -> bool, x: string, seen: set<string>, later: set<string>)
    requires Fruitful(g, permitted, x, seen + {x}, later) && permitted(x) && Reach(g, x, x)
    requires forall z :: Edge(g, x, z) ==> z in later
    ensures Fruitful(g, permitted, x, seen, later)
  {
  }

  /** Everything reachable from the starts, listed once each, unless some of it is not permitted. */
  method ListReachable(g: Digraph, permitted: string -> bool, starts: seq<string>) returns (r: Option<seq<string>>)
    ensures r.Some? <==> forall x :: ReachFrom(g, starts, x) ==> permitted(x)
    ensures r.Some? ==> DistinctNames(r.value) && forall x :: x in r.value <==> ReachFrom(g, starts, x)
  {
    ghost var all := Universe(g, starts);
    assert Closed(g, all);
    var ok, seen, listed := true, {}, [];
    for i := 0 to |starts|
      invariant Ready(g, seen, listed, all) && Closed(g, seen)
      invariant forall y :: y in seen ==> permitted(y) && ReachFrom(g, starts, y)
      invariant forall j :: 0 <= j < i ==> starts[j] in seen
    {
      assert starts[i] in starts;
      ghost var before := seen;
      ok, seen, listed := Visit(g, permitted, starts[i], seen, listed, all);
      if !ok {
        return None;
      }
      assert forall y :: y in seen && y !in before ==> Reach(g, starts[i], y);
    }
    forall x | ReachFrom(g, starts, x) ensures x in seen {
      var s :| s in starts && Reach(g, s, x);
      ClosedReach(g, seen, s, x);
    }
    return Some(listed);
  }
}

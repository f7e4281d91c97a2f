/**
 * The strongly connected components computed while restoring derivations, with the explicit index,
 * low-link and stack bookkeeping of the source (src/atlas/store.py).
 */
module Tarjan {
  import opened Graph
  import opened Ordering

  /** Children are nodes of the graph. */
  ghost predicate Proper(g: Digraph)
  {
    forall x, y :: Edge(g, x, y) ==> y in g
  }

  function Members(names: seq<string>): set<string>
  {
    set x | x in names
  }

  /** The bookkeeping at one moment; `active` are the nodes whose calls have not returned. */
  datatype View = View(index: nat, indices: map<string, nat>, stack: seq<string>, active: set<string>,
                       components: seq<seq<string>>)
  {
    ghost function Done(): set<string>
    {
      indices.Keys - Members(stack)
    }
  }

  // ---------------------------------------------------------------- the invariant

  /** Numbers grow along the stack and stay below the counter. */
  ghost predicate Numbered(v: View)
  {
    && (forall x :: x in v.indices ==> v.indices[x] < v.index)
    && (forall x :: x in v.stack ==> x in v.indices)
    && (forall i, j :: 0 <= i < j < |v.stack| ==> v.indices[v.stack[i]] < v.indices[v.stack[j]])
    && (forall x :: x in v.active ==> x in v.stack)
  }

  /** Only an active node can have a successor that was not visited yet; finished components are closed. */
  ghost predicate Explored(g: Digraph, v: View)
  {
    && v.indices.Keys <= g.Keys
    && (forall x, y :: x in v.indices && x !in v.active && Edge(g, x, y) ==> y in v.indices)
    && Closed(g, v.Done())
  }

  /** An active node reaches everything stacked after it. */
  ghost predicate ActiveReach(g: Digraph, v: View)
    requires Numbered(v)
  {
    forall x, y :: x in v.active && y in v.stack && v.indices[x] <= v.indices[y] ==> Reach(g, x, y)
  }

  /** `y`, whose own call has returned, leads back to a node whose call is still running and that was stacked no later. */
  ghost predicate LeadsBack(g: Digraph, v: View, y: string, x: string)
    requires Numbered(v) && y in v.stack
  {
    x in v.active && v.indices[x] <= v.indices[y] && Reach(g, y, x)
  }

  ghost predicate AllLeadBack(g: Digraph, v: View)
    requires Numbered(v)
  {
    forall y :: y in v.stack && y !in v.active ==> exists x :: LeadsBack(g, v, y, x)
  }

  /** The names are one full class of mutually reachable nodes. */
  ghost predicate IsComponent(g: Digraph, names: seq<string>)
  {
    && names != [] && Ascending(names)
    && forall x, y :: x in names ==> (y in names <==> Reach(g, x, y) && Reach(g, y, x))
  }

  function Covered(components: seq<seq<string>>): set<string>
  {
    if components == [] then {}
    else Covered(components[..|components| - 1]) + Members(components[|components| - 1])
  }

  ghost predicate Emitted(g: Digraph, v: View)
  {
    (forall c :: c in v.components ==> IsComponent(g, c)) && v.Done() == Covered(v.components)
  }

  ghost predicate Inv(g: Digraph, v: View)
  {
    Numbered(v) && Explored(g, v) && ActiveReach(g, v) && AllLeadBack(g, v) && Emitted(g, v)
  }

  // ---------------------------------------------------------------- what one call adds

  /** `w` continues `v`: numbers are kept, the stack grew at its end, the running calls are the same. */
  ghost predicate Extends(v: View, w: View)
  {
    && v.index <= w.index
    && w.active == v.active
    && (forall x :: x in v.indices ==> x in w.indices && w.indices[x] == v.indices[x])
    && (forall x :: x in w.indices && x !in v.indices ==> v.index <= w.indices[x])
    && |v.stack| <= |w.stack| && w.stack[..|v.stack|] == v.stack
  }

  /** No node at or above position `from` has an edge to an older stacked node numbered below `low`. */
  ghost predicate LowBound(g: Digraph, v: View, from: nat, low: nat)
    requires Numbered(v) && from <= |v.stack|
  {
    forall i, j :: 0 <= i < from <= j < |v.stack| && Edge(g, v.stack[j], v.stack[i]) ==> low <= v.indices[v.stack[i]]
  }

  /** Some stacked node numbered `low` is reachable from `x`. */
  ghost predicate LowReached(g: Digraph, v: View, x: string, low: nat)
    requires Numbered(v)
  {
    exists y :: y in v.stack && v.indices[y] == low && Reach(g, x, y)
  }

  // ---------------------------------------------------------------- the three state changes

  ghost function Push(v: View, x: string): View
  {
    View(v.index + 1, v.indices[x := v.index], v.stack + [x], v.active + {x}, v.components)
  }

  ghost function Retire(v: View, x: string): View
  {
    v.(active := v.active - {x})
  }

  ghost function Emit(v: View, from: nat, component: seq<string>, x: string): View
    requires from <= |v.stack|
  {
    v.(active := v.active - {x}, stack := v.stack[..from], components := v.components + [component])
  }

  lemma PushDone(v: View, x: string)
    requires Numbered(v) && x !in v.indices
    ensures Push(v, x).Done() == v.Done()
    ensures Numbered(Push(v, x))
  {
    var w := Push(v, x);
    assert w.indices.Keys == v.indices.Keys + {x};
    assert Members(w.stack) == Members(v.stack) + {x};
  }

  lemma PushExplored(g: Digraph, v: View, x: string)
    requires Numbered(v) && Explored(g, v) && x in g && x !in v.indices
    ensures Explored(g, Push(v, x))
  {
    PushDone(v, x);
  }

  lemma PushActiveReach(g: Digraph, v: View, x: string)
    requires Numbered(v) && ActiveReach(g, v) && x !in v.indices
    requires forall a :: a in v.active ==> Reach(g, a, x)
    ensures Numbered(Push(v, x)) && ActiveReach(g, Push(v, x))
  {
    PushDone(v, x);
    ReachSelf(g, x);
  }

  lemma PushLeadsBack(g: Digraph, v: View, x: string)
    requires Numbered(v) && AllLeadBack(g, v) && x !in v.indices
    ensures Numbered(Push(v, x)) && AllLeadBack(g, Push(v, x))
  {
    PushDone(v, x);
    var w := Push(v, x);
    forall y | y in w.stack && y !in w.active ensures exists a :: LeadsBack(g, w, y, a) {
      assert y in v.stack;
      var a :| LeadsBack(g, v, y, a);
      assert LeadsBack(g, w, y, a);
    }
  }

  lemma PushKeeps(g: Digraph, v: View, x: string)
    requires Inv(g, v) && x in g && x !in v.indices
    requires forall a :: a in v.active ==> Reach(g, a, x)
    ensures Inv(g, Push(v, x))
  {
    PushDone(v, x);
    PushExplored(g, v, x);
    PushActiveReach(g, v, x);
    PushLeadsBack(g, v, x);
    assert Emitted(g, Push(v, x));
  }

  /** `x` sits at position `from`; every other running call is below it and its successors are all visited. */
  ghost predicate Finishing(g: Digraph, v: View, x: string, from: nat)
    requires Numbered(v)
  {
    && from < |v.stack| && v.stack[from] == x && x in v.active
    && (forall a :: a in v.active && a != x ==> a in v.stack[..from])
    && (forall y :: Edge(g, x, y) ==> y in v.indices)
  }

  /** A call that found a lower number leads back to a call below it. */
  lemma LowLeadsBack(g: Digraph, v: View, x: string, from: nat, low: nat) returns (z: string)
    requires Numbered(v) && AllLeadBack(g, v) && Finishing(g, v, x, from)
    requires LowReached(g, v, x, low) && low < v.indices[x]
    ensures z in v.active && z != x && v.indices[z] < v.indices[x] && Reach(g, x, z)
  {
    var y :| y in v.stack && v.indices[y] == low && Reach(g, x, y);
    if y in v.active {
      z := y;
    } else {
      z :| LeadsBack(g, v, y, z);
      ReachTransitive(g, x, y, z);
    }
  }

  lemma RetireLeadsBack(g: Digraph, v: View, x: string, from: nat, low: nat, y: string)
    requires Numbered(v) && AllLeadBack(g, v) && Finishing(g, v, x, from)
    requires LowReached(g, v, x, low) && low < v.indices[x]
    requires y in v.stack && (y == x || y !in v.active)
    ensures Numbered(Retire(v, x)) && exists a :: LeadsBack(g, Retire(v, x), y, a)
  {
    var w := Retire(v, x);
    var z := LowLeadsBack(g, v, x, from, low);
    if y == x {
      assert LeadsBack(g, w, y, z);
    } else {
      var a :| LeadsBack(g, v, y, a);
      if a == x {
        ReachTransitive(g, y, x, z);
        assert LeadsBack(g, w, y, z);
      } else {
        assert LeadsBack(g, w, y, a);
      }
    }
  }

  lemma RetireKeeps(g: Digraph, v: View, x: string, from: nat, low: nat)
    requires Inv(g, v) && Finishing(g, v, x, from)
    requires LowReached(g, v, x, low) && low < v.indices[x]
    ensures Inv(g, Retire(v, x))
  {
    forall y | y in v.stack && (y == x || y !in v.active)
      ensures exists a :: LeadsBack(g, Retire(v, x), y, a)
    {
      RetireLeadsBack(g, v, x, from, low, y);
    }
  }

  lemma EmitDone(v: View, from: nat, component: seq<string>, x: string)
    requires Numbered(v) && from < |v.stack| && x == v.stack[from]
    requires forall a :: a in v.active && a != x ==> a in v.stack[..from]
    ensures Numbered(Emit(v, from, component, x))
    ensures Emit(v, from, component, x).Done() == v.Done() + Members(v.stack[from..])
    ensures Members(v.stack[from..]) !! v.Done()
    ensures forall y :: y in v.stack[from..] ==> y !in v.stack[..from] && v.indices[x] <= v.indices[y] && (y == x || y !in v.active)
  {
    var w := Emit(v, from, component, x);
    forall y | y in v.stack[from..]
      ensures y !in v.stack[..from] && v.indices[x] <= v.indices[y] && (y == x || y !in v.active)
    {
      var j :| 0 <= j < |v.stack[from..]| && v.stack[from..][j] == y;
      assert v.stack[from + j] == y;
    }
    assert v.stack == v.stack[..from] + v.stack[from..];
  }

  lemma EmitEdge(g: Digraph, v: View, x: string, from: nat, a: string, b: string)
    requires Numbered(v) && from < |v.stack| && v.stack[from] == x
    requires LowBound(g, v, from, v.indices[x])
    requires a in v.stack[from..] && Edge(g, a, b)
    ensures b !in v.stack[..from]
  {
    var j :| 0 <= j < |v.stack[from..]| && v.stack[from..][j] == a;
    assert a == v.stack[from + j];
  }

  lemma EmitClosed(g: Digraph, v: View, x: string, from: nat)
    requires Numbered(v) && Explored(g, v) && Finishing(g, v, x, from)
    requires LowBound(g, v, from, v.indices[x])
    ensures Closed(g, v.Done() + Members(v.stack[from..]))
  {
    EmitDone(v, from, [], x);
    assert v.stack == v.stack[..from] + v.stack[from..];
    forall a, b | a in v.stack[from..] && Edge(g, a, b) ensures b in v.Done() || b in v.stack[from..] {
      assert a in v.stack && b in v.indices;
      EmitEdge(g, v, x, from, a, b);
    }
  }

  lemma EmitMutual(g: Digraph, v: View, x: string, from: nat, y: string)
    requires Numbered(v) && ActiveReach(g, v) && AllLeadBack(g, v) && Finishing(g, v, x, from)
    requires Closed(g, v.Done() + Members(v.stack[from..]))
    requires y in v.stack[from..]
    ensures Reach(g, x, y) && Reach(g, y, x)
  {
    EmitDone(v, from, [], x);
    if y == x {
      ReachSelf(g, x);
    } else {
      assert y in v.stack;
      var a :| LeadsBack(g, v, y, a);
      if a != x {
        ClosedReach(g, v.Done() + Members(v.stack[from..]), y, a);
        assert false;
      }
    }
  }

  lemma EmitIsComponent(g: Digraph, v: View, x: string, from: nat)
    requires Inv(g, v) && Finishing(g, v, x, from) && LowBound(g, v, from, v.indices[x])
    ensures IsComponent(g, SortNames(Members(v.stack[from..])))
  {
    var nodes := Members(v.stack[from..]);
    EmitDone(v, from, [], x);
    EmitClosed(g, v, x, from);
    assert x in nodes by { assert v.stack[from..][0] == x; }
    forall a, b | a in nodes ensures b in nodes <==> Reach(g, a, b) && Reach(g, b, a) {
      EmitMutual(g, v, x, from, a);
      if b in nodes {
        EmitMutual(g, v, x, from, b);
        ReachTransitive(g, a, x, b);
        ReachTransitive(g, b, x, a);
      } else if Reach(g, a, b) && Reach(g, b, a) {
        ClosedReach(g, v.Done() + nodes, a, b);
        ClosedReach(g, v.Done(), b, a);
      }
    }
  }

  lemma EmitKeeps(g: Digraph, v: View, x: string, from: nat)
    requires Inv(g, v) && Finishing(g, v, x, from) && LowBound(g, v, from, v.indices[x])
    ensures Inv(g, Emit(v, from, SortNames(Members(v.stack[from..])), x))
  {
    var component := SortNames(Members(v.stack[from..]));
    var w := Emit(v, from, component, x);
    EmitKeepsExplored(g, v, x, from, component);
    EmitIsComponent(g, v, x, from);
    forall y | y in w.stack && y !in w.active ensures exists a :: LeadsBack(g, w, y, a) {
      EmitKeepsLeadsBack(g, v, x, from, y, component);
    }
    EmitKeepsEmitted(g, v, x, from, component);
  }

  lemma EmitKeepsExplored(g: Digraph, v: View, x: string, from: nat, component: seq<string>)
    requires Numbered(v) && Explored(g, v) && ActiveReach(g, v)
    requires Finishing(g, v, x, from) && LowBound(g, v, from, v.indices[x])
    ensures var w := Emit(v, from, component, x); Numbered(w) && Explored(g, w) && ActiveReach(g, w)
  {
    EmitDone(v, from, component, x);
    EmitClosed(g, v, x, from);
    assert forall y :: y in v.stack[..from] ==> y in v.stack;
  }

  lemma EmitKeepsLeadsBack(g: Digraph, v: View, x: string, from: nat, y: string, component: seq<string>)
    requires Numbered(v) && AllLeadBack(g, v) && Finishing(g, v, x, from) && Numbered(Emit(v, from, component, x))
    requires y in v.stack[..from] && y !in v.active
    ensures exists a :: LeadsBack(g, Emit(v, from, component, x), y, a)
  {
    var w := Emit(v, from, component, x);
    assert y in v.stack;
    var a :| LeadsBack(g, v, y, a);
    var i :| 0 <= i < |v.stack[..from]| && v.stack[..from][i] == y;
    assert v.stack[i] == y;
    assert LeadsBack(g, w, y, a);
  }

  lemma EmitKeepsEmitted(g: Digraph, v: View, x: string, from: nat, component: seq<string>)
    requires Numbered(v) && Emitted(g, v) && Finishing(g, v, x, from) && IsComponent(g, component)
    requires component == SortNames(Members(v.stack[from..]))
    ensures Emitted(g, Emit(v, from, component, x))
  {
    EmitDone(v, from, component, x);
    CoveredExtend(v.components, component);
    MembersOfSorted(Members(v.stack[from..]));
    ComponentsExtend(g, v.components, component);
  }

  lemma MembersOfSorted(names: set<string>)
    ensures Members(SortNames(names)) == names
  {
  }

  lemma ComponentsExtend(g: Digraph, components: seq<seq<string>>, component: seq<string>)
    requires IsComponent(g, component) && forall c :: c in components ==> IsComponent(g, c)
    ensures forall c :: c in components + [component] ==> IsComponent(g, c)
  {
    forall c | c in components + [component] ensures IsComponent(g, c) {
      if c !in components {
        assert c == component;
      }
    }
  }

  lemma CoveredExtend(components: seq<seq<string>>, component: seq<string>)
    ensures Covered(components + [component]) == Covered(components) + Members(component)
  {
    assert (components + [component])[..|components|] == components;
  }

  // ---------------------------------------------------------------- one call

  /** What a call for `x` started at `v` leaves behind: `low` bounds every edge from the nodes it left on
      the stack to older ones, and is the number of a stacked node that `x` reaches. */
  ghost predicate Returned(g: Digraph, v: View, w: View, x: string, low: nat)
  {
    && Inv(g, w) && Extends(v, w) && x in w.indices && low <= w.indices[x]
    && LowBound(g, w, |v.stack|, low)
    && (if x in w.stack then LowReached(g, w, x, low) else low == w.indices[x])
  }

  ghost predicate LowBoundSoFar(g: Digraph, v: View, from: nat, low: nat, seen: set<string>)
    requires Numbered(v) && from <= |v.stack|
  {
    forall i, j :: 0 <= i < from <= j < |v.stack| && Edge(g, v.stack[j], v.stack[i]) && (j > from || v.stack[i] in seen)
              ==> low <= v.indices[v.stack[i]]
  }

  /** The state inside the call for `x` when the children in `seen` have been handled. */
  ghost predicate Running(g: Digraph, v: View, w: View, x: string, low: nat, seen: set<string>)
  {
    && Inv(g, w) && x !in v.indices && Numbered(v) && Extends(Push(v, x), w)
    && low <= w.indices[x] && LowReached(g, w, x, low)
    && seen <= w.indices.Keys
    && LowBoundSoFar(g, w, |v.stack|, low, seen)
  }

  lemma RunningPosition(g: Digraph, v: View, w: View, x: string, low: nat, seen: set<string>)
    requires Running(g, v, w, x, low, seen)
    ensures |v.stack| < |w.stack| && w.stack[|v.stack|] == x && w.stack[..|v.stack|] == v.stack
    ensures x in w.active && w.active == v.active + {x} && w.indices[x] == v.index
    ensures forall y :: y in v.indices ==> y in w.indices && w.indices[y] == v.indices[y]
  {
    var p := Push(v, x);
    assert w.stack[..|p.stack|][|v.stack|] == x;
    assert w.stack[..|p.stack|][..|v.stack|] == v.stack;
  }

  lemma RunStart(g: Digraph, v: View, x: string)
    requires Inv(g, v) && x in g && x !in v.indices
    requires forall a :: a in v.active ==> Reach(g, a, x)
    ensures Running(g, v, Push(v, x), x, v.index, {})
  {
    PushKeeps(g, v, x);
    ReachSelf(g, x);
    assert x in Push(v, x).stack;
  }

  lemma RunSkip(g: Digraph, v: View, w: View, x: string, low: nat, seen: set<string>, child: string)
    requires Running(g, v, w, x, low, seen) && child in w.indices && child !in w.stack
    ensures Running(g, v, w, x, low, seen + {child})
  {
  }

  lemma RunBack(g: Digraph, v: View, w: View, x: string, low: nat, seen: set<string>, child: string)
    requires Running(g, v, w, x, low, seen) && child in w.stack && Edge(g, x, child)
    ensures Running(g, v, w, x, if low <= w.indices[child] then low else w.indices[child], seen + {child})
  {
    ReachEdge(g, x, child);
  }

  lemma RunCallReached(g: Digraph, v: View, w: View, u: View, x: string, low: nat, child: string, childLow: nat)
    requires Numbered(w) && LowReached(g, w, x, low) && x in w.indices && low <= w.indices[x]
    requires Edge(g, x, child) && child !in w.indices
    requires Numbered(u) && Extends(w, u) && child in u.indices
    requires if child in u.stack then LowReached(g, u, child, childLow) else childLow == u.indices[child]
    ensures LowReached(g, u, x, if low <= childLow then low else childLow)
  {
    if low <= childLow {
      var y :| y in w.stack && w.indices[y] == low && Reach(g, x, y);
      assert y in u.stack[..|w.stack|];
      assert y in u.stack;
    } else {
      var y :| y in u.stack && u.indices[y] == childLow && Reach(g, child, y);
      ReachStep(g, x, child, y);
    }
  }

  lemma RunCallBound(g: Digraph, w: View, u: View, from: nat, low: nat, seen: set<string>, child: string, childLow: nat)
    requires Numbered(w) && Numbered(u) && Extends(w, u) && from < |w.stack|
    requires child !in w.indices
    requires LowBoundSoFar(g, w, from, low, seen) && LowBound(g, u, |w.stack|, childLow)
    ensures LowBoundSoFar(g, u, from, if low <= childLow then low else childLow, seen + {child})
  {
    forall i, j | 0 <= i < from <= j < |u.stack| && Edge(g, u.stack[j], u.stack[i])
                  && (j > from || u.stack[i] in seen + {child})
      ensures (if low <= childLow then low else childLow) <= u.indices[u.stack[i]]
    {
      assert u.stack[i] == u.stack[..|w.stack|][i] == w.stack[i];
      assert w.stack[i] in w.stack;
      if j < |w.stack| {
        assert u.stack[j] == u.stack[..|w.stack|][j] == w.stack[j];
      }
    }
  }

  lemma RunCall(g: Digraph, v: View, w: View, u: View, x: string, low: nat, seen: set<string>, child: string, childLow: nat)
    requires Running(g, v, w, x, low, seen) && Edge(g, x, child) && child !in w.indices
    requires Returned(g, w, u, child, childLow)
    ensures Running(g, v, u, x, if low <= childLow then low else childLow, seen + {child})
  {
    RunningPosition(g, v, w, x, low, seen);
    RunCallReached(g, v, w, u, x, low, child, childLow);
    RunCallBound(g, w, u, |v.stack|, low, seen, child, childLow);
    ExtendsTransitive(Push(v, x), w, u);
  }

  lemma ExtendsTransitive(a: View, b: View, c: View)
    requires Extends(a, b) && Extends(b, c)
    ensures Extends(a, c)
  {
    assert c.stack[..|a.stack|] == c.stack[..|b.stack|][..|a.stack|];
  }

  lemma BoundComplete(g: Digraph, w: View, x: string, from: nat, low: nat, seen: set<string>)
    requires Numbered(w) && from < |w.stack| && w.stack[from] == x && LowBoundSoFar(g, w, from, low, seen)
    requires forall y :: Edge(g, x, y) ==> y in seen
    ensures LowBound(g, w, from, low)
  {
    forall i, j | 0 <= i < from <= j < |w.stack| && Edge(g, w.stack[j], w.stack[i]) ensures low <= w.indices[w.stack[i]] {
      assert j > from || w.stack[i] in seen;
    }
  }

  lemma RunFinishing(g: Digraph, v: View, w: View, x: string, low: nat, seen: set<string>)
    requires Running(g, v, w, x, low, seen) && forall y :: Edge(g, x, y) ==> y in seen
    ensures Finishing(g, w, x, |v.stack|) && LowBound(g, w, |v.stack|, low)
  {
    RunningPosition(g, v, w, x, low, seen);
    forall a | a in w.active && a != x ensures a in w.stack[..|v.stack|] {
      assert a in v.active && a in v.stack;
    }
    assert forall y :: Edge(g, x, y) ==> y in w.indices;
    BoundComplete(g, w, x, |v.stack|, low, seen);
  }

  lemma RunRetire(g: Digraph, v: View, w: View, x: string, low: nat, seen: set<string>)
    requires Running(g, v, w, x, low, seen) && forall y :: Edge(g, x, y) ==> y in seen
    requires low < w.indices[x]
    ensures Returned(g, v, Retire(w, x), x, low)
  {
    RunFinishing(g, v, w, x, low, seen);
    RunningPosition(g, v, w, x, low, seen);
    RetireKeeps(g, w, x, |v.stack|, low);
    assert x !in v.active;
    assert Retire(w, x).active == v.active;
  }

  lemma RunEmit(g: Digraph, v: View, w: View, x: string, low: nat, seen: set<string>)
    requires Running(g, v, w, x, low, seen) && forall y :: Edge(g, x, y) ==> y in seen
    requires low == w.indices[x]
    ensures |v.stack| < |w.stack|
    ensures Returned(g, v, Emit(w, |v.stack|, SortNames(Members(w.stack[|v.stack|..])), x), x, low)
  {
    RunFinishing(g, v, w, x, low, seen);
    RunningPosition(g, v, w, x, low, seen);
    EmitKeeps(g, w, x, |v.stack|);
    assert x !in v.active && x !in v.stack;
  }

  // ---------------------------------------------------------------- the search itself

  ghost predicate Distinct(names: seq<string>)
  {
    forall i, j :: 0 <= i < j < |names| ==> names[i] != names[j]
  }

  lemma NumberedDistinct(v: View)
    requires Numbered(v)
    ensures Distinct(v.stack)
  {
  }

  lemma PopTop(was: seq<string>, height: nat)
    requires Distinct(was) && 0 < height <= |was|
    ensures Members(was[..height - 1]) == Members(was[..height]) - {was[height - 1]}
    ensures Members(was[height - 1..]) == Members(was[height..]) + {was[height - 1]}
  {
    assert was[..height] == was[..height - 1] + [was[height - 1]];
    assert was[height - 1..] == [was[height - 1]] + was[height..];
  }

  function Children(g: Digraph, x: string): set<string>
    requires x in g
  {
    set y | y in g[x]
  }

  lemma MembersExtend(names: seq<string>, x: string)
    ensures Members(names + [x]) == Members(names) + {x}
  {
  }

  lemma UnvisitedFewer(keys: set<string>, visited: set<string>, more: set<string>)
    requires visited <= more
    ensures |keys - more| <= |keys - visited|
  {
    assert keys - visited == (keys - more) + (keys * (more - visited));
  }

  /** Every running call reaches the next child. */
  lemma ChildReached(g: Digraph, v: View, w: View, x: string, low: nat, seen: set<string>, child: string)
    requires Running(g, v, w, x, low, seen) && Edge(g, x, child)
    ensures Inv(g, w) && forall a :: a in w.active ==> Reach(g, a, child)
  {
    RunningPosition(g, v, w, x, low, seen);
    ReachEdge(g, x, child);
    forall a | a in w.active ensures Reach(g, a, child) {
      if a != x {
        assert a in v.stack;
        ReachTransitive(g, a, x, child);
      }
    }
  }

  /** The variables of the enclosing method that the nested `strongconnect` rebinds and mutates. */
  datatype Tables = Tables(index: nat, indices: map<string, nat>, lowlinks: map<string, nat>,
                           stack: seq<string>, onStack: set<string>, components: seq<seq<string>>)

  ghost function Now(t: Tables, active: set<string>): View
  {
    View(t.index, t.indices, t.stack, active, t.components)
  }

  ghost predicate Consistent(t: Tables)
  {
    t.onStack == Members(t.stack) && t.lowlinks.Keys == t.indices.Keys
  }

  /** The low-links of `t` survive in `u`, except perhaps that of `node`. */
  ghost predicate KeepsLowlinks(t: Tables, u: Tables, node: string)
  {
    forall x :: x in t.lowlinks && x != node ==> x in u.lowlinks && u.lowlinks[x] == t.lowlinks[x]
  }

  /** Pops the stack down to and including `node`. */
  method PopComponent(node: string, stack: seq<string>, onStack: set<string>, ghost from: nat)
    returns (popped: set<string>, stack': seq<string>, onStack': set<string>)
    requires Distinct(stack) && onStack == Members(stack)
    requires from < |stack| && stack[from] == node
    ensures stack' == stack[..from] && onStack' == Members(stack')
    ensures popped == Members(stack[from..])
  {
    popped, stack', onStack' := {}, stack, onStack;
    assert stack[..|stack|] == stack && stack[|stack|..] == [];
    while true
      invariant from < |stack'| <= |stack| && stack' == stack[..|stack'|]
      invariant onStack' == Members(stack') && popped == Members(stack[|stack'|..])
      decreases |stack'|
    {
      PopTop(stack, |stack'|);
      var child := stack'[|stack'| - 1];
      stack' := stack'[..|stack'| - 1];
      onStack' := onStack' - {child};
      popped := popped + {child};
      if child == node {
        break;
      }
    }
  }

  /** `strongconnect`: visits everything reachable from `node` and emits the components completed by it. */
  method StrongConnect(g: Digraph, node: string, t: Tables, ghost active: set<string>) returns (u: Tables)
    requires Proper(g) && Consistent(t) && Inv(g, Now(t, active)) && node in g && node !in t.indices
    requires forall a :: a in active ==> Reach(g, a, node)
    ensures Consistent(u) && node in u.lowlinks
    ensures Returned(g, Now(t, active), Now(u, active), node, u.lowlinks[node])
    ensures KeepsLowlinks(t, u, node)
    decreases |g.Keys - t.indices.Keys|, 0
  {
    u := Opened(t, node);
    OpenTables(g, node, t);
    OpenCall(g, node, t, active);
    var children := SortedChildren(g, node);
    u := VisitChildren(g, node, children, u, Now(t, active), active + {node});
    AllChildrenSeen(g, node, children);
    u := CloseCall(g, node, u, Now(t, active), active, First(children, |children|));
  }

  /** The new node gets the next number and goes on the stack. */
  function Opened(t: Tables, node: string): (u: Tables)
    ensures KeepsLowlinks(t, u, node)
  {
    Tables(t.index + 1, t.indices[node := t.index], t.lowlinks[node := t.index],
           t.stack + [node], t.onStack + {node}, t.components)
  }

  lemma OpenTables(g: Digraph, node: string, t: Tables)
    requires Consistent(t) && node in g && node !in t.indices
    ensures Consistent(Opened(t, node)) && node in Opened(t, node).lowlinks
    ensures |g.Keys - Opened(t, node).indices.Keys| < |g.Keys - t.indices.Keys|
  {
    Fewer(g.Keys, t.indices.Keys, node);
    MembersExtend(t.stack, node);
    KeysExtend(t.indices, node, t.index);
    KeysExtend(t.lowlinks, node, t.index);
  }

  lemma KeysExtend(m: map<string, nat>, key: string, value: nat)
    ensures m[key := value].Keys == m.Keys + {key}
  {
  }

  lemma OpenCall(g: Digraph, node: string, t: Tables, active: set<string>)
    requires Inv(g, Now(t, active)) && node in g && node !in t.indices
    requires forall a :: a in active ==> Reach(g, a, node)
    ensures node !in active
    ensures Running(g, Now(t, active), Now(Opened(t, node), active + {node}), node, t.index, {})
  {
    RunStart(g, Now(t, active), node);
    assert Now(Opened(t, node), active + {node}) == Push(Now(t, active), node);
  }

  /** After the last child: either `node` starts a component, or it stays on the stack. */
  method CloseCall(g: Digraph, node: string, t: Tables, ghost before: View, ghost active: set<string>, ghost seen: set<string>)
    returns (u: Tables)
    requires Consistent(t) && node in g && node in t.lowlinks && before.active == active && node !in active
    requires Running(g, before, Now(t, active + {node}), node, t.lowlinks[node], seen)
    requires forall y :: Edge(g, node, y) ==> y in seen
    ensures Consistent(u) && u.lowlinks == t.lowlinks
    ensures Returned(g, before, Now(u, active), node, u.lowlinks[node])
  {
    ghost var here := Now(t, active + {node});
    if t.lowlinks[node] == t.indices[node] {
      RunEmit(g, before, here, node, t.lowlinks[node], seen);
      RunningPosition(g, before, here, node, t.lowlinks[node], seen);
      NumberedDistinct(here);
      var popped, stack, onStack := PopComponent(node, t.stack, t.onStack, |before.stack|);
      u := t.(stack := stack, onStack := onStack, components := t.components + [SortNames(popped)]);
      assert Now(u, active) == Emit(here, |before.stack|, SortNames(popped), node);
    } else {
      RunRetire(g, before, here, node, t.lowlinks[node], seen);
      u := t;
      assert Now(u, active) == Retire(here, node);
    }
  }

  /** The loop over the sorted children of `node`. */
  method VisitChildren(g: Digraph, node: string, children: seq<string>, t: Tables, ghost before: View, ghost active: set<string>)
    returns (u: Tables)
    requires Proper(g) && Consistent(t) && node in g && node in t.lowlinks
    requires forall i :: 0 <= i < |children| ==> Edge(g, node, children[i])
    requires Running(g, before, Now(t, active), node, t.lowlinks[node], {})
    ensures Consistent(u) && node in u.lowlinks
    ensures Running(g, before, Now(u, active), node, u.lowlinks[node], First(children, |children|))
    ensures KeepsLowlinks(t, u, node)
    decreases |g.Keys - t.indices.Keys|, 2
  {
    u := t;
    for k := 0 to |children|
      invariant Consistent(u) && node in u.lowlinks && |g.Keys - u.indices.Keys| <= |g.Keys - t.indices.Keys|
      invariant Running(g, before, Now(u, active), node, u.lowlinks[node], First(children, k))
      invariant KeepsLowlinks(t, u, node)
    {
      u := VisitChild(g, node, children[k], u, before, active, First(children, k));
    }
  }

  /** The set of the first `k` names. */
  ghost function First(names: seq<string>, k: nat): set<string>
    requires k <= |names|
  {
    if k == 0 then {} else First(names, k - 1) + {names[k - 1]}
  }

  lemma {:induction false} FirstContains(names: seq<string>, k: nat, i: nat)
    requires i < k <= |names|
    ensures names[i] in First(names, k)
  {
    if i < k - 1 {
      FirstContains(names, k - 1, i);
    }
  }

  lemma AllChildrenSeen(g: Digraph, node: string, children: seq<string>)
    requires forall y :: Edge(g, node, y) ==> y in children
    ensures forall y :: Edge(g, node, y) ==> y in First(children, |children|)
  {
    forall y | Edge(g, node, y) ensures y in First(children, |children|) {
      var i :| 0 <= i < |children| && children[i] == y;
      FirstContains(children, |children|, i);
    }
  }

  method SortedChildren(g: Digraph, node: string) returns (children: seq<string>)
    requires node in g
    ensures forall y :: Edge(g, node, y) ==> y in children
    ensures forall i :: 0 <= i < |children| ==> Edge(g, node, children[i])
  {
    children := SortNames(Children(g, node));
    assert forall i :: 0 <= i < |children| ==> children[i] in children;
  }

  /** One turn of that loop. */
  method VisitChild(g: Digraph, node: string, child: string, t: Tables, ghost before: View, ghost active: set<string>,
                    ghost seen: set<string>) returns (u: Tables)
    requires Proper(g) && Consistent(t) && node in g && node in t.lowlinks && Edge(g, node, child)
    requires Running(g, before, Now(t, active), node, t.lowlinks[node], seen)
    ensures Consistent(u) && node in u.lowlinks && |g.Keys - u.indices.Keys| <= |g.Keys - t.indices.Keys|
    ensures Running(g, before, Now(u, active), node, u.lowlinks[node], seen + {child})
    ensures KeepsLowlinks(t, u, node)
    decreases |g.Keys - t.indices.Keys|, 1
  {
    ghost var here := Now(t, active);
    var low := t.lowlinks[node];
    if child !in t.indices {
      ChildReached(g, before, here, node, low, seen, child);
      u := StrongConnect(g, child, t, active);
      UnvisitedFewer(g.Keys, t.indices.Keys, u.indices.Keys);
      low := Min(u.lowlinks[node], u.lowlinks[child]);
      RunCall(g, before, here, Now(u, active), node, t.lowlinks[node], seen, child, u.lowlinks[child]);
      u := SetLowlink(u, node, low);
    } else if child in t.onStack {
      RunBack(g, before, here, node, low, seen, child);
      u := SetLowlink(t, node, Min(low, t.indices[child]));
    } else {
      RunSkip(g, before, here, node, low, seen, child);
      u := t;
    }
  }

  function SetLowlink(t: Tables, node: string, low: nat): (u: Tables)
    requires node in t.lowlinks
    ensures u.lowlinks.Keys == t.lowlinks.Keys && KeepsLowlinks(t, u, node)
  {
    t.(lowlinks := t.lowlinks[node := low])
  }

  function Min(a: nat, b: nat): nat
  {
    if a <= b then a else b
  }

  // ---------------------------------------------------------------- the marked nodes

  lemma StartInv(g: Digraph)
    ensures Inv(g, View(0, map[], [], {}, []))
  {
    assert View(0, map[], [], {}, []).Done() == {};
  }

  /** With no call running the stack is empty: everything visited belongs to an emitted component. */
  lemma IdleDone(g: Digraph, v: View)
    requires Inv(g, v) && v.active == {}
    ensures v.stack == [] && v.indices.Keys == Covered(v.components)
  {
    assert forall x :: x in v.stack ==> x in v.active;
    assert Members(v.stack) == {};
    MembersEmpty(v.stack);
  }

  lemma MembersEmpty(names: seq<string>)
    ensures names != [] ==> Members(names) != {}
  {
    if names != [] {
      assert names[0] in Members(names);
    }
  }

  predicate Cyclic(g: Digraph, component: seq<string>)
    requires component != [] && component[0] in g
  {
    |component| > 1 || component[0] in g[component[0]]
  }

  /** A component is marked exactly when its nodes lie on cycles. */
  lemma CyclicExactly(g: Digraph, component: seq<string>, x: string)
    requires IsComponent(g, component) && component[0] in g && x in component
    ensures Cyclic(g, component) <==> OnCycle(g, x)
  {
    if Cyclic(g, component) {
      if |component| > 1 {
        BelowTotal(component[0], component[1]);
        var y := if component[0] == x then component[1] else component[0];
        assert y in component && Reach(g, x, y) && Reach(g, y, x);
        ReachOnCycle(g, x, y);
      } else {
        ReachSelf(g, x);
        assert Edge(g, x, x);
      }
    }
    if OnCycle(g, x) {
      var y :| Edge(g, x, y) && Reach(g, y, x);
      ReachEdge(g, x, y);
      assert y in component;
      if |component| == 1 {
        assert y == x == component[0];
      }
    }
  }

  lemma ReachOnCycle(g: Digraph, x: string, y: string)
    requires x != y && Reach(g, x, y) && Reach(g, y, x)
    ensures OnCycle(g, x)
  {
    var steps :| Path(g, x, steps, y);
    assert Path(g, steps[0], steps[1..], y);
    ReachTransitive(g, steps[0], y, x);
    assert Edge(g, x, steps[0]);
  }

  /** All components of the graph. */
  method Components(g: Digraph) returns (components: seq<seq<string>>)
    requires Proper(g)
    ensures forall c :: c in components ==> IsComponent(g, c)
    ensures Covered(components) == g.Keys
  {
    var t := Tables(0, map[], map[], [], {}, []);
    StartInv(g);
    var pending := g.Keys;
    while pending != {}
      invariant pending <= g.Keys && g.Keys - pending <= t.indices.Keys
      invariant Consistent(t) && Inv(g, Now(t, {}))
      decreases |pending|
    {
      var node := Least(pending);
      if node !in t.indices {
        t := StrongConnect(g, node, t, {});
      }
      pending := pending - {node};
    }
    IdleDone(g, Now(t, {}));
    components := t.components;
  }

  lemma CoveredBy(components: seq<seq<string>>, x: string)
    requires x in Covered(components)
    ensures exists c :: c in components && x in c
  {
    var last := components[|components| - 1];
    if x !in last {
      CoveredBy(components[..|components| - 1], x);
      var c :| c in components[..|components| - 1] && x in c;
      assert c in components;
    }
  }

  lemma CoversPrefix(components: seq<seq<string>>, k: nat, x: string)
    requires k < |components|
    ensures Covered(components[..k + 1]) == Covered(components[..k]) + Members(components[k])
  {
    assert components[..k + 1] == components[..k] + [components[k]];
    CoveredExtend(components[..k], components[k]);
  }

  /** The ids that restore marks with "derivation dependency cycle": exactly the nodes on a directed
      cycle, self-loops included, for every finite graph. */
  method CycleIds(g: Digraph) returns (marked: set<string>)
    requires Proper(g)
    ensures forall x :: x in marked <==> OnCycle(g, x)
  {
    var components := Components(g);
    marked := {};
    for k := 0 to |components|
      invariant forall x :: x in marked <==> x in Covered(components[..k]) && OnCycle(g, x)
    {
      var component := components[k];
      assert component in components;
      ComponentInGraph(g, components, component);
      CoversPrefix(components, k, component[0]);
      forall x | x in component ensures Cyclic(g, component) <==> OnCycle(g, x) {
        CyclicExactly(g, component, x);
      }
      if Cyclic(g, component) {
        marked := marked + Members(component);
      }
    }
    assert components[..|components|] == components;
    forall x | OnCycle(g, x) ensures x in g.Keys {
    }
  }

  lemma ComponentInGraph(g: Digraph, components: seq<seq<string>>, component: seq<string>)
    requires Covered(components) == g.Keys && component in components
    ensures forall x :: x in component ==> x in g
  {
    CoveredContains(components, component);
  }

  lemma CoveredContains(components: seq<seq<string>>, component: seq<string>)
    requires component in components
    ensures Members(component) <= Covered(components)
  {
    if component != components[|components| - 1] {
      assert component in components[..|components| - 1];
      CoveredContains(components[..|components| - 1], component);
    }
  }
}

/** Restoring replacement edges from arbitrary rows: which edges are published, exactly
    (src/atlas/store.py, `_validate_supersessions`). */
module SupersessionRestore {
  import opened Graph
  import opened Lineage
  import opened Model
  import opened Ordering
  import opened Supersessions

  // ---------------------------------------------------------------- functional graphs

  /** Two nodes reached from one node lie one behind the other. */
  lemma {:induction false} Comparable(next: map<Id, Id>, s: Id, steps: seq<Id>, r: Id, c: Id)
    requires Path(Links(next), s, steps, r) && Reach(Links(next), s, c)
    ensures Reach(Links(next), r, c) || Reach(Links(next), c, r)
    decreases |steps|
  {
    var g := Links(next);
    if steps == [] {
    } else if s == c {
      assert Reach(g, c, r);
    } else {
      var toC :| Path(g, s, toC, c);
      assert toC[0] == steps[0] && Path(g, toC[0], toC[1..], c);
      Comparable(next, steps[0], steps[1..], r, c);
    }
  }

  /** What a node of a cycle reaches leads back to it. */
  lemma CycleReturns(next: map<Id, Id>, c: Id, r: Id)
    requires OnCycle(Links(next), c) && Reach(Links(next), c, r)
    ensures Reach(Links(next), r, c)
  {
    var g := Links(next);
    var cycle := set z | z in next && Reach(g, c, z) && Reach(g, z, c);
    ReachSelf(g, c);
    forall a, b | a in cycle && Edge(g, a, b) ensures b in cycle {
      CycleSuccessor(next, c, a, b);
    }
    ClosedReach(g, cycle, c, r);
  }

  ghost predicate LeadsToCycle(next: map<Id, Id>, s: Id, c: Id)
  {
    Reach(Links(next), s, c) && OnCycle(Links(next), c)
  }

  /** `s` is, in the order of names, the first retired record that leads to the cycle of `c`. */
  ghost predicate FirstTo(next: map<Id, Id>, s: Id, c: Id)
  {
    LeadsToCycle(next, s, c) && forall t :: t in next && LeadsToCycle(next, t, c) ==> t == s || Below(s, t)
  }

  ghost predicate First(next: map<Id, Id>, s: Id)
  {
    s in next && exists c :: FirstTo(next, s, c)
  }

  /** Everything on the way from such a first record, its whole cycle included, when it is in `starts`. */
  ghost function Dropped(next: map<Id, Id>, starts: set<Id>): set<Id>
  {
    set r | r in next && exists s :: s in starts && First(next, s) && Reach(Links(next), s, r)
  }

  lemma FirstExists(next: map<Id, Id>, c: Id) returns (s: Id)
    requires OnCycle(Links(next), c)
    ensures s in next && FirstTo(next, s, c)
  {
    var leaders := set t | t in next && LeadsToCycle(next, t, c);
    ReachSelf(Links(next), c);
    assert c in leaders;
    s := Least(leaders);
  }

  /** A dropped record leads to a cycle. */
  lemma DroppedLeads(next: map<Id, Id>, starts: set<Id>, r: Id)
    requires r in Dropped(next, starts)
    ensures exists c :: LeadsToCycle(next, r, c)
  {
    var s :| s in starts && First(next, s) && Reach(Links(next), s, r);
    var c :| FirstTo(next, s, c);
    OrbitLeads(next, s, c, r);
  }

  lemma OrbitLeads(next: map<Id, Id>, s: Id, c: Id, r: Id)
    requires LeadsToCycle(next, s, c) && Reach(Links(next), s, r)
    ensures LeadsToCycle(next, r, c)
  {
    var steps :| Path(Links(next), s, steps, r);
    Comparable(next, s, steps, r, c);
    if !Reach(Links(next), r, c) {
      CycleReturns(next, c, r);
    }
  }

  lemma OnCycleDropped(next: map<Id, Id>, c: Id)
    requires OnCycle(Links(next), c)
    ensures c in Dropped(next, next.Keys)
  {
    var s := FirstExists(next, c);
  }

  // ---------------------------------------------------------------- one start of the loop

  function Without(next: map<Id, Id>, gone: set<Id>): map<Id, Id>
  {
    map x | x in next && x !in gone :: next[x]
  }

  lemma WithoutSubgraph(next: map<Id, Id>, gone: set<Id>)
    ensures Subgraph(Links(Without(next, gone)), Links(next))
  {
  }

  ghost predicate AllBelow(next: map<Id, Id>, starts: set<Id>, s: Id)
  {
    s in next && forall t :: t in starts <==> t in next && Below(t, s)
  }

  /** If `s` is not first, what is left of its way is free of cycles. */
  lemma LaterStartEnds(next: map<Id, Id>, starts: set<Id>, s: Id, x: Id)
    requires AllBelow(next, starts, s) && !First(next, s)
    requires Reach(Links(Without(next, Dropped(next, starts))), s, x)
    ensures !OnCycle(Links(Without(next, Dropped(next, starts))), x)
  {
    var sub := Without(next, Dropped(next, starts));
    WithoutSubgraph(next, Dropped(next, starts));
    if OnCycle(Links(sub), x) {
      var y :| Edge(Links(sub), x, y) && Reach(Links(sub), y, x);
      SubgraphReach(Links(sub), Links(next), y, x);
      SubgraphReach(Links(sub), Links(next), s, x);
      assert OnCycle(Links(next), x);
      var m := FirstExists(next, x);
    }
  }

  /** If `s` is first, nothing on its way is gone yet. */
  lemma FirstStartWhole(next: map<Id, Id>, starts: set<Id>, s: Id, r: Id)
    requires AllBelow(next, starts, s) && First(next, s) && Reach(Links(next), s, r)
    ensures r !in Dropped(next, starts)
  {
    if r in Dropped(next, starts) {
      var p :| p in starts && First(next, p) && Reach(Links(next), p, r);
      var c :| FirstTo(next, s, c);
      OrbitLeads(next, s, c, r);
      ReachTransitive(Links(next), p, r, c);
      BelowTotal(p, s);
      assert LeadsToCycle(next, p, c);
    }
  }

  lemma {:induction false} WholePath(next: map<Id, Id>, gone: set<Id>, s: Id, steps: seq<Id>, r: Id)
    requires Path(Links(next), s, steps, r)
    requires forall x :: Reach(Links(next), s, x) ==> x !in gone
    ensures Path(Links(Without(next, gone)), s, steps, r)
    decreases |steps|
  {
    if steps != [] {
      ReachSelf(Links(next), s);
      forall x | Reach(Links(next), steps[0], x) ensures x !in gone {
        ReachStep(Links(next), s, steps[0], x);
      }
      WholePath(next, gone, steps[0], steps[1..], r);
    }
  }

  lemma WholeReach(next: map<Id, Id>, starts: set<Id>, s: Id, r: Id)
    requires AllBelow(next, starts, s) && First(next, s) && Reach(Links(next), s, r)
    ensures Reach(Links(Without(next, Dropped(next, starts))), s, r)
  {
    forall x | Reach(Links(next), s, x) ensures x !in Dropped(next, starts) {
      FirstStartWhole(next, starts, s, x);
    }
    var steps :| Path(Links(next), s, steps, r);
    WholePath(next, Dropped(next, starts), s, steps, r);
  }

  /** If `s` is first, its way still runs into a cycle. */
  lemma FirstStartRepeats(next: map<Id, Id>, starts: set<Id>, s: Id) returns (c: Id)
    requires AllBelow(next, starts, s) && First(next, s)
    ensures Reach(Links(Without(next, Dropped(next, starts))), s, c)
    ensures OnCycle(Links(Without(next, Dropped(next, starts))), c)
  {
    var gone := Dropped(next, starts);
    c :| FirstTo(next, s, c);
    WholeReach(next, starts, s, c);
    var y :| Edge(Links(next), c, y) && Reach(Links(next), y, c);
    forall x | Reach(Links(next), c, x) ensures x !in gone {
      ReachTransitive(Links(next), s, c, x);
      FirstStartWhole(next, starts, s, x);
    }
    ReachSelf(Links(next), c);
    forall x | Reach(Links(next), y, x) ensures x !in gone {
      ReachStep(Links(next), c, y, x);
    }
    var steps :| Path(Links(next), y, steps, c);
    WholePath(next, gone, y, steps, c);
    assert Edge(Links(Without(next, gone)), c, y);
    assert Reach(Links(Without(next, gone)), y, c);
  }

  /** One turn of the cycle loop updates the set of dropped records. */
  lemma TurnDrops(next: map<Id, Id>, starts: set<Id>, s: Id, repeats: bool, seen: set<Id>)
    requires AllBelow(next, starts, s)
    requires var sub := Links(Without(next, Dropped(next, starts)));
             && (repeats ==> exists x :: Reach(sub, s, x) && OnCycle(sub, x))
             && (!repeats ==> !exists x :: Reach(sub, s, x) && OnCycle(sub, x))
             && (forall x :: x in seen ==> x in next && Reach(sub, s, x))
             && (forall x :: repeats && Reach(sub, s, x) ==> x in seen)
    ensures Dropped(next, starts + {s}) == Dropped(next, starts) + (if repeats then seen else {})
  {
    var gone := Dropped(next, starts);
    var sub := Links(Without(next, gone));
    if First(next, s) {
      var c := FirstStartRepeats(next, starts, s);
      assert repeats;
      WithoutSubgraph(next, gone);
      forall x ensures x in seen <==> x in next && Reach(Links(next), s, x) {
        if x in seen {
          SubgraphReach(sub, Links(next), s, x);
        } else if x in next && Reach(Links(next), s, x) {
          WholeReach(next, starts, s, x);
        }
      }
    } else {
      forall x | Reach(sub, s, x) ensures !OnCycle(sub, x) {
        LaterStartEnds(next, starts, s, x);
      }
    }
  }

  // ---------------------------------------------------------------- from rows to the published relation

  datatype Claim = Claim(row: Id, edge: Supersession)

  function ClaimsOf(claims: seq<Claim>, retired: Id): seq<Claim>
  {
    if claims == [] then []
    else (if claims[0].edge.retired == retired then [claims[0]] else []) + ClaimsOf(claims[1..], retired)
  }

  lemma ClaimsOfMembers(claims: seq<Claim>, retired: Id)
    ensures forall c :: c in ClaimsOf(claims, retired) <==> c in claims && c.edge.retired == retired
  {
  }

  function Retirees(claims: seq<Claim>): set<Id>
  {
    set c | c in claims :: c.edge.retired
  }

  /** The edges whose retired record is claimed by exactly one row. */
  function UniqueEdges(claims: seq<Claim>): (edges: map<Id, Supersession>)
    ensures forall r :: r in edges ==> edges[r].retired == r
  {
    map r | r in Retirees(claims) && |ClaimsOf(claims, r)| == 1 :: UniqueEdge(claims, r)
  }

  function UniqueEdge(claims: seq<Claim>, r: Id): (edge: Supersession)
    requires |ClaimsOf(claims, r)| == 1
    ensures edge.retired == r
  {
    ClaimsOfMembers(claims, r);
    assert ClaimsOf(claims, r)[0] in ClaimsOf(claims, r);
    ClaimsOf(claims, r)[0].edge
  }

  /** The published relation: uniquely claimed edges, less those on the way from the first name that leads
      to a cycle into that cycle. */
  ghost function Published(claims: seq<Claim>): map<Id, Supersession>
  {
    var edges := UniqueEdges(claims);
    Keep(edges, Dropped(Replacements(edges), edges.Keys))
  }

  function Keep(edges: map<Id, Supersession>, gone: set<Id>): map<Id, Supersession>
  {
    map r | r in edges && r !in gone :: edges[r]
  }

  /** The cycle loop: walks from every name in order and pops everything it saw when the walk repeats. */
  method DropCycles(next: map<Id, Id>, starts: seq<Id>) returns (gone: set<Id>)
    requires Ascending(starts) && StartsBefore(starts, |starts|) == next.Keys
    ensures gone == Dropped(next, next.Keys)
  {
    gone := {};
    for k := 0 to |starts|
      invariant gone == Dropped(next, StartsBefore(starts, k))
    {
      var repeats, seen, last := WalkRepeats(Without(next, gone), starts[k]);
      TurnAt(next, starts, k, gone, repeats, seen);
      if repeats {
        gone := gone + seen;
      }
    }
  }

  lemma TurnAt(next: map<Id, Id>, starts: seq<Id>, k: nat, gone: set<Id>, repeats: bool, seen: set<Id>)
    requires Ascending(starts) && StartsBefore(starts, |starts|) == next.Keys && k < |starts|
    requires gone == Dropped(next, StartsBefore(starts, k))
    requires var sub := Links(Without(next, gone));
             && (repeats ==> exists x :: Reach(sub, starts[k], x) && OnCycle(sub, x))
             && (!repeats ==> !exists x :: Reach(sub, starts[k], x) && OnCycle(sub, x))
             && (forall x :: x in seen ==> x in next && Reach(sub, starts[k], x))
             && (forall x :: repeats && Reach(sub, starts[k], x) ==> x in seen)
    ensures Dropped(next, StartsBefore(starts, k + 1)) == gone + (if repeats then seen else {})
  {
    StartsBeforeMembers(starts, |starts|);
    assert starts[..|starts|] == starts;
    NamesBefore(starts, k, next.Keys);
    TurnDrops(next, StartsBefore(starts, k), starts[k], repeats, seen);
  }

  /** `_validate_supersessions`, with the rows it sets aside. */
  method ValidateSupersessions(claims: seq<Claim>) returns (valid: map<Id, Supersession>, isolated: set<Id>)
    ensures valid == Published(claims)
    ensures isolated == SetAside(claims, valid.Keys)
  {
    var edges := UniqueEdges(claims);
    var starts := SortNames(edges.Keys);
    AllStarts(starts, edges.Keys);
    var gone := DropCycles(Replacements(edges), starts);
    valid := Keep(edges, gone);
    isolated := SetAside(claims, valid.Keys);
  }

  /** Every row whose edge is not published stays visible among the isolated rows. */
  function SetAside(claims: seq<Claim>, published: set<Id>): set<Id>
  {
    set c | c in claims && c.edge.retired !in published :: c.row
  }

  function StartsBefore(starts: seq<Id>, k: nat): set<Id>
    requires k <= |starts|
  {
    if k == 0 then {} else StartsBefore(starts, k - 1) + {starts[k - 1]}
  }

  lemma {:induction false} StartsBeforeMembers(starts: seq<Id>, k: nat)
    requires k <= |starts|
    ensures forall x :: x in StartsBefore(starts, k) <==> x in starts[..k]
  {
    if k > 0 {
      StartsBeforeMembers(starts, k - 1);
      assert starts[..k] == starts[..k - 1] + [starts[k - 1]];
    }
  }

  lemma NamesBefore(starts: seq<Id>, k: nat, keys: set<Id>)
    requires k < |starts| && Ascending(starts) && forall x :: x in starts <==> x in keys
    ensures starts[k] in keys
    ensures forall t :: t in StartsBefore(starts, k) <==> t in keys && Below(t, starts[k])
  {
    StartsBeforeMembers(starts, k);
    assert starts[k] in starts;
    forall t ensures t in starts[..k] <==> t in keys && Below(t, starts[k]) {
      if t in starts[..k] {
        var i :| 0 <= i < k && starts[i] == t;
      }
      if t in keys && Below(t, starts[k]) {
        var i :| 0 <= i < |starts| && starts[i] == t;
        BelowTotal(starts[i], starts[k]);
        if i < k {
          assert starts[..k][i] == t;
        }
      }
    }
  }

  lemma AllStarts(starts: seq<Id>, keys: set<Id>)
    requires forall x :: x in starts <==> x in keys
    ensures StartsBefore(starts, |starts|) == keys
  {
    StartsBeforeMembers(starts, |starts|);
    assert starts[..|starts|] == starts;
  }

  lemma PublishedLinks(claims: seq<Claim>)
    ensures Links(Replacements(Published(claims)))
         == Links(Without(Replacements(UniqueEdges(claims)), Dropped(Replacements(UniqueEdges(claims)), UniqueEdges(claims).Keys)))
  {
  }

  /** From any rows restore publishes a cycle-free partial function: no edge on a cycle survives, and
      every uniquely claimed edge from which no cycle is reached does. */
  lemma PublishedSpec(claims: seq<Claim>)
    ensures Acyclic(Links(Replacements(Published(claims))))
    ensures forall r :: r in Published(claims) ==> r in UniqueEdges(claims) && Published(claims)[r] == UniqueEdges(claims)[r]
    ensures forall r :: OnCycle(Links(Replacements(UniqueEdges(claims))), r) ==> r !in Published(claims)
    ensures forall r :: r in UniqueEdges(claims) && !(exists c :: LeadsToCycle(Replacements(UniqueEdges(claims)), r, c))
              ==> r in Published(claims)
  {
    var next := Replacements(UniqueEdges(claims));
    var sub := Links(Replacements(Published(claims)));
    PublishedLinks(claims);
    WithoutSubgraph(next, Dropped(next, next.Keys));
    forall r | OnCycle(Links(next), r) ensures r !in Published(claims) {
      OnCycleDropped(next, r);
    }
    forall x ensures !OnCycle(sub, x) {
      if OnCycle(sub, x) {
        var y :| Edge(sub, x, y) && Reach(sub, y, x);
        SubgraphReach(sub, Links(next), y, x);
        assert OnCycle(Links(next), x);
      }
    }
    forall r | r in UniqueEdges(claims) && r !in Published(claims)
      ensures exists c :: LeadsToCycle(next, r, c)
    {
      DroppedLeads(next, next.Keys, r);
    }
  }
}

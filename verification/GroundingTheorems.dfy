/** What a grounding says, told from the stored records and the definitions of the snapshot. */
module GroundingTheorems {
  import opened Grounding
  import opened Lineage
  import opened Model
  import opened Ordering
  import opened RestoreClosure
  import opened Rules
  import opened RuleTheorems
  import opened Selections

  // ---------------------------------------------------------------- what a property node is about

  /** The place a grounding is made at: a snapshot, a context it fixes and the effective records there. */
  datatype Site = Site(st: StoreState, snapshot: Snapshot, context: Context, effective: set<Id>)

  function WorldOf(site: Site): World
  {
    WorldAt(site.st, site.snapshot, site.context, site.effective)
  }

  /** `x` is an effective property of what the node names, at its version and in a scope of the context. */
  ghost predicate About(site: Site, bindings: map<string, Id>, leaf: Expr, x: Id)
  {
    && leaf.Node? && leaf.participant in bindings && leaf.version.Version?
    && x in site.effective && x in site.st.records && (PropertyRow, x) !in site.st.isolated
    && site.st.records[x].Property? && site.st.records[x].description == bindings[leaf.participant]
    && site.st.records[x].property == leaf.property && site.st.records[x].version == leaf.version.text
    && site.st.records[x].place in site.context.scopes
  }

  /** Exactly one record is. */
  ghost predicate Known(site: Site, bindings: map<string, Id>, leaf: Expr)
  {
    exists x :: About(site, bindings, leaf, x) && forall y :: About(site, bindings, leaf, y) ==> y == x
  }

  ghost predicate AllLeavesKnown(site: Site, bindings: map<string, Id>, e: Expr)
  {
    forall leaf :: leaf in Leaves(e) ==> Known(site, bindings, leaf)
  }

  /** A record that a node of the expression is about lists the item. */
  ghost predicate Given(site: Site, bindings: map<string, Id>, e: Expr, item: string)
  {
    exists leaf, x :: leaf in Leaves(e) && About(site, bindings, leaf, x)
                      && site.st.records[x].value.FiniteSet? && item in site.st.records[x].value.items
  }

  lemma FoundIsAbout(site: Site, bindings: map<string, Id>, leaf: Expr)
    ensures forall x :: x in Found(WorldOf(site), bindings, leaf) <==> About(site, bindings, leaf, x)
  {
  }

  lemma KnownExactly(site: Site, bindings: map<string, Id>, leaf: Expr)
    ensures |Found(WorldOf(site), bindings, leaf)| == 1 <==> Known(site, bindings, leaf)
  {
    var found := Found(WorldOf(site), bindings, leaf);
    FoundIsAbout(site, bindings, leaf);
    if |found| == 1 {
      var x := Only(found);
      assert About(site, bindings, leaf, x);
      forall y | About(site, bindings, leaf, y) ensures y == x {
        assert y in {x};
      }
    }
    if Known(site, bindings, leaf) {
      var x :| About(site, bindings, leaf, x) && forall y :: About(site, bindings, leaf, y) ==> y == x;
      Singleton(found, x);
    }
  }

  lemma Singleton(found: set<Id>, x: Id)
    requires x in found && forall y :: y in found ==> y == x
    ensures |found| == 1
  {
    assert found == {x};
  }

  lemma {:induction false} GivenExactly(site: Site, bindings: map<string, Id>, e: Expr, item: string)
    ensures item in SetOf(WorldOf(site), bindings, e) <==> Given(site, bindings, e, item)
  {
    if e.NotAnObject? {
    } else if IsSetOperator(e.op) {
      GivenExactly(site, bindings, e.left, item);
      GivenExactly(site, bindings, e.right, item);
      assert forall leaf :: leaf in Leaves(e) <==> leaf in Leaves(e.left) || leaf in Leaves(e.right);
    } else {
      FoundIsAbout(site, bindings, e);
      GivenByLeaf(site, bindings, e, item);
    }
  }

  lemma GivenByLeaf(site: Site, bindings: map<string, Id>, e: Expr, item: string)
    requires e.Node? && !IsSetOperator(e.op)
    requires forall x :: x in Found(WorldOf(site), bindings, e) <==> About(site, bindings, e, x)
    ensures item in SetOf(WorldOf(site), bindings, e) <==> Given(site, bindings, e, item)
  {
    if item in SetOf(WorldOf(site), bindings, e) {
      assert e in Leaves(e);
    }
  }

  // ---------------------------------------------------------------- when an evaluation succeeds

  /** The node names a participant and the version that the snapshot has fixed. */
  ghost predicate Resolvable(site: Site, bindings: map<string, Id>, e: Expr)
    requires e.Node?
  {
    && e.participant in bindings && e.property != "" && e.version.Version? && e.version.text != ""
    && e.property in site.snapshot.properties && site.snapshot.properties[e.property] == e.version.text
    && (e.property, e.version.text) in site.st.vocabulary.properties
  }

  /** It does, and a single record about it is an exact set. */
  ghost predicate LeafReadable(site: Site, bindings: map<string, Id>, e: Expr)
    requires e.Node?
  {
    && Resolvable(site, bindings, e)
    && (Known(site, bindings, e) ==>
          && site.st.vocabulary.properties[(e.property, e.version.text)] == FiniteSetKind
          && forall x :: About(site, bindings, e, x) ==> site.st.records[x].value.FiniteSet? && site.st.records[x].epistemic.Exact?)
  }

  /** Known operators over readable nodes; a subset test is no operand, unless something below is not known. */
  ghost predicate Evaluable(site: Site, bindings: map<string, Id>, e: Expr)
  {
    && e.Node?
    && if e.op == "property" then LeafReadable(site, bindings, e)
       else
         && (e.op == "set_union" || e.op == "set_subset")
         && Evaluable(site, bindings, e.left) && Evaluable(site, bindings, e.right)
         && (AllLeavesKnown(site, bindings, e) ==> e.left.op != "set_subset" && e.right.op != "set_subset")
  }

  lemma FoundFirst(found: set<Id>, sorted: seq<Id>)
    requires sorted == SortNames(found) && |found| == 1
    ensures found == {sorted[0]}
  {
    assert sorted[0] in sorted;
    var x := Only(found);
  }

  /** Reading the one record about the node. */
  lemma OnlyReadYields(site: Site, bindings: map<string, Id>, e: Expr, s: Reads, x: Id)
    requires e.Node? && Resolvable(site, bindings, e)
    requires Found(WorldOf(site), bindings, e) == {x}
    ensures Read(WorldOf(site), bindings, e, s).Yields?
       <==> && site.st.vocabulary.properties[(e.property, e.version.text)] == FiniteSetKind
            && site.st.records[x].value.FiniteSet? && site.st.records[x].epistemic.Exact?
  {
    FoundFirst({x}, SortNames({x}));
  }

  lemma UnknownReadYields(site: Site, bindings: map<string, Id>, e: Expr, s: Reads)
    requires e.Node? && Resolvable(site, bindings, e)
    requires |Found(WorldOf(site), bindings, e)| != 1
    ensures Read(WorldOf(site), bindings, e, s).Yields?
  {
  }

  lemma UnresolvedReadFails(site: Site, bindings: map<string, Id>, e: Expr, s: Reads)
    requires e.Node? && !Resolvable(site, bindings, e)
    ensures !Read(WorldOf(site), bindings, e, s).Yields?
  {
  }

  lemma ReadYieldsExactly(site: Site, bindings: map<string, Id>, e: Expr, s: Reads)
    requires e.Node?
    ensures Read(WorldOf(site), bindings, e, s).Yields? <==> LeafReadable(site, bindings, e)
  {
    if !Resolvable(site, bindings, e) {
      UnresolvedReadFails(site, bindings, e, s);
    } else {
      var found := Found(WorldOf(site), bindings, e);
      FoundIsAbout(site, bindings, e);
      KnownExactly(site, bindings, e);
      if |found| == 1 {
        var x := Only(found);
        assert found == {x};
        OnlyReadYields(site, bindings, e, s, x);
      } else {
        UnknownReadYields(site, bindings, e, s);
      }
    }
  }

  lemma UnsettledExactly(site: Site, bindings: map<string, Id>, e: Expr)
    ensures SomeUnsettled(WorldOf(site), bindings, Leaves(e)) <==> !AllLeavesKnown(site, bindings, e)
  {
    forall leaf ensures |Found(WorldOf(site), bindings, leaf)| == 1 <==> Known(site, bindings, leaf) {
      KnownExactly(site, bindings, leaf);
    }
  }

  /** A node yields a set, unless it is a subset test or something below it is not known. */
  lemma YieldsItems(site: Site, bindings: map<string, Id>, e: Expr, s: Reads)
    requires Evaluate(WorldOf(site), bindings, e, s).Yields?
    ensures var o := Evaluate(WorldOf(site), bindings, e, s);
            && e.Node?
            && (o.truth.Unsettled? <==> !AllLeavesKnown(site, bindings, e))
            && (!o.truth.Unsettled? ==> (o.items.None? <==> e.op == "set_subset"))
  {
    EvaluationIsFaithful(WorldOf(site), bindings, e, s);
    UnsettledExactly(site, bindings, e);
  }

  lemma LeavesKnownExactly(site: Site, bindings: map<string, Id>, e: Expr)
    requires e.Node? && IsSetOperator(e.op)
    ensures AllLeavesKnown(site, bindings, e) <==> AllLeavesKnown(site, bindings, e.left) && AllLeavesKnown(site, bindings, e.right)
  {
    assert forall leaf :: leaf in Leaves(e) <==> leaf in Leaves(e.left) || leaf in Leaves(e.right);
  }

  /** Exactly which conditions evaluate without a failure. */
  lemma {:induction false} YieldsExactly(site: Site, bindings: map<string, Id>, e: Expr, s: Reads)
    ensures Evaluate(WorldOf(site), bindings, e, s).Yields? <==> Evaluable(site, bindings, e)
  {
    if e.Node? && e.op == "property" {
      ReadYieldsExactly(site, bindings, e, s);
    } else if e.Node? && IsSetOperator(e.op) {
      YieldsExactly(site, bindings, e.left, s);
      LeavesKnownExactly(site, bindings, e);
      var left := Evaluate(WorldOf(site), bindings, e.left, s);
      if left.Yields? {
        YieldsItems(site, bindings, e.left, s);
        YieldsExactly(site, bindings, e.right, left.after);
        if Evaluate(WorldOf(site), bindings, e.right, left.after).Yields? {
          YieldsItems(site, bindings, e.right, left.after);
        }
      }
    }
  }

  // ---------------------------------------------------------------- what was read

  ghost predicate NothingAbout(site: Site, bindings: map<string, Id>, leaf: Expr)
  {
    leaf.Node? && leaf.participant in bindings && leaf.version.Version? && forall x :: !About(site, bindings, leaf, x)
  }

  ghost predicate SeveralAbout(site: Site, bindings: map<string, Id>, leaf: Expr)
  {
    exists x, y :: About(site, bindings, leaf, x) && About(site, bindings, leaf, y) && x != y
  }

  /** The read failed because nothing is known. */
  ghost predicate ReportsMissing(site: Site, bindings: map<string, Id>, e: Expr, m: MissingRead)
  {
    exists leaf :: leaf in Leaves(e) && NothingAbout(site, bindings, leaf)
                   && m == MissingRead(leaf.participant, bindings[leaf.participant], leaf.property, leaf.version.text)
  }

  /** The read failed because several records are known, which are listed in order. */
  ghost predicate ReportsAmbiguous(site: Site, bindings: map<string, Id>, e: Expr, a: AmbiguousRead)
  {
    && Ascending(a.records)
    && exists leaf :: leaf in Leaves(e) && SeveralAbout(site, bindings, leaf) && leaf.participant in bindings && leaf.version.Version?
         && (forall x :: x in a.records <==> About(site, bindings, leaf, x))
         && a == AmbiguousRead(leaf.participant, bindings[leaf.participant], leaf.property, leaf.version.text, a.records)
  }

  lemma {:induction false} MissingMembers(w: World, bindings: map<string, Id>, leaves: seq<Expr>, m: MissingRead)
    ensures m in MissingOf(w, bindings, leaves) <==> exists leaf :: leaf in leaves && m in MissingAt(w, bindings, leaf)
  {
    if leaves != [] {
      MissingMembers(w, bindings, leaves[1..], m);
      assert forall leaf :: leaf in leaves <==> leaf == leaves[0] || leaf in leaves[1..];
    }
  }

  lemma {:induction false} AmbiguousMembers(w: World, bindings: map<string, Id>, leaves: seq<Expr>, a: AmbiguousRead)
    ensures a in AmbiguousOf(w, bindings, leaves) <==> exists leaf :: leaf in leaves && a in AmbiguousAt(w, bindings, leaf)
  {
    if leaves != [] {
      AmbiguousMembers(w, bindings, leaves[1..], a);
      assert forall leaf :: leaf in leaves <==> leaf == leaves[0] || leaf in leaves[1..];
    }
  }

  lemma MissingExactly(site: Site, bindings: map<string, Id>, e: Expr, m: MissingRead)
    ensures m in MissingOf(WorldOf(site), bindings, Leaves(e)) <==> ReportsMissing(site, bindings, e, m)
  {
    MissingMembers(WorldOf(site), bindings, Leaves(e), m);
    forall leaf ensures forall x :: x in Found(WorldOf(site), bindings, leaf) <==> About(site, bindings, leaf, x) {
      FoundIsAbout(site, bindings, leaf);
    }
    forall leaf | leaf in Leaves(e)
      ensures m in MissingAt(WorldOf(site), bindings, leaf)
         <==> NothingAbout(site, bindings, leaf) && m == MissingRead(leaf.participant, bindings[leaf.participant], leaf.property, leaf.version.text)
    {
      if NothingAbout(site, bindings, leaf) {
        assert Found(WorldOf(site), bindings, leaf) == {};
      }
    }
  }

  lemma TwoMembers(found: set<Id>)
    ensures |found| > 1 ==> exists x, y :: x in found && y in found && x != y
  {
    if |found| > 1 {
      var x :| x in found;
      assert found == {x} + (found - {x});
      var y :| y in found - {x};
    }
  }

  lemma TwoAreSeveral(found: set<Id>, x: Id, y: Id)
    requires x in found && y in found && x != y
    ensures |found| > 1
  {
    assert {x, y} <= found;
    assert found == {x, y} + (found - {x, y});
  }

  lemma SeveralExactly(site: Site, bindings: map<string, Id>, leaf: Expr)
    ensures |Found(WorldOf(site), bindings, leaf)| > 1 <==> SeveralAbout(site, bindings, leaf)
  {
    var found := Found(WorldOf(site), bindings, leaf);
    FoundIsAbout(site, bindings, leaf);
    TwoMembers(found);
    if |found| > 1 {
      var x, y :| x in found && y in found && x != y;
      assert About(site, bindings, leaf, x) && About(site, bindings, leaf, y);
    }
    if SeveralAbout(site, bindings, leaf) {
      var x, y :| About(site, bindings, leaf, x) && About(site, bindings, leaf, y) && x != y;
      TwoAreSeveral(found, x, y);
    }
  }

  lemma AmbiguousAtExactly(site: Site, bindings: map<string, Id>, leaf: Expr, a: AmbiguousRead)
    ensures a in AmbiguousAt(WorldOf(site), bindings, leaf)
       <==> && Ascending(a.records)
            && SeveralAbout(site, bindings, leaf) && leaf.Node? && leaf.participant in bindings && leaf.version.Version?
            && (forall x :: x in a.records <==> About(site, bindings, leaf, x))
            && a == AmbiguousRead(leaf.participant, bindings[leaf.participant], leaf.property, leaf.version.text, a.records)
  {
    var found := Found(WorldOf(site), bindings, leaf);
    FoundIsAbout(site, bindings, leaf);
    SeveralExactly(site, bindings, leaf);
    if Ascending(a.records) && forall x :: x in a.records <==> About(site, bindings, leaf, x) {
      AscendingUnique(a.records, SortNames(found));
    }
  }

  lemma AmbiguousExactly(site: Site, bindings: map<string, Id>, e: Expr, a: AmbiguousRead)
    ensures a in AmbiguousOf(WorldOf(site), bindings, Leaves(e)) <==> ReportsAmbiguous(site, bindings, e, a)
  {
    AmbiguousMembers(WorldOf(site), bindings, Leaves(e), a);
    forall leaf ensures a in AmbiguousAt(WorldOf(site), bindings, leaf)
       <==> && Ascending(a.records)
            && SeveralAbout(site, bindings, leaf) && leaf.Node? && leaf.participant in bindings && leaf.version.Version?
            && (forall x :: x in a.records <==> About(site, bindings, leaf, x))
            && a == AmbiguousRead(leaf.participant, bindings[leaf.participant], leaf.property, leaf.version.text, a.records)
    {
      AmbiguousAtExactly(site, bindings, leaf, a);
    }
  }

  // ---------------------------------------------------------------- groundings

  /** One description of the snapshot for each participant, each participant once. */
  ghost predicate BindsParticipants(bindings: map<string, Id>, names: seq<string>, snapshot: Snapshot)
  {
    && DistinctNames(names) && (forall name :: name in bindings <==> name in names)
    && forall name :: name in bindings ==> bindings[name] in snapshot.descriptions
  }

  /** The snapshot fixes the rule, which is marked as supported, and a context that enables it. */
  ghost predicate Prepared(st: StoreState, rule: Id, bindings: map<string, Id>, snapshot: Id, context: Id)
  {
    && snapshot in st.snapshots
    && var snap := st.snapshots[snapshot];
    && rule in snap.rules && snap.rules[rule].supported && context in snap.contexts && rule in snap.contexts[context].enabled
    && BindsParticipants(bindings, snap.rules[rule].body.participants, snap)
  }

  lemma BindsExactly(bindings: map<string, Id>, names: seq<string>, snapshot: Snapshot)
    ensures BindingsFit(bindings, names, snapshot) <==> BindsParticipants(bindings, names, snapshot)
  {
    DistinctCounts(names);
    if BindingsFit(bindings, names, snapshot) || BindsParticipants(bindings, names, snapshot) {
      assert (set x | x in names) == bindings.Keys;
    }
  }

  function SiteOf(st: StoreState, snapshot: Id, context: Id, effective: set<Id>): Site
    requires snapshot in st.snapshots && context in st.snapshots[snapshot].contexts
  {
    Site(st, st.snapshots[snapshot], st.snapshots[snapshot].contexts[context], effective)
  }

  /** Everything is known; of a subset test, whatever is given on the left is given on the right. */
  ghost predicate Holds(site: Site, bindings: map<string, Id>, e: Expr)
  {
    && AllLeavesKnown(site, bindings, e)
    && (e.Node? && e.op == "set_subset" ==> forall item :: Given(site, bindings, e.left, item) ==> Given(site, bindings, e.right, item))
  }

  ghost predicate TruthTold(site: Site, bindings: map<string, Id>, e: Expr, truth: Truth)
  {
    && (truth == Unsettled <==> !AllLeavesKnown(site, bindings, e))
    && (truth == True <==> Holds(site, bindings, e))
  }

  /** The records read, each once, and the reads that failed. */
  ghost predicate ReadsTold(site: Site, bindings: map<string, Id>, e: Expr, r: GroundingResult)
  {
    && DistinctNames(r.dependencies)
    && (forall x :: x in r.dependencies <==> exists leaf :: leaf in Leaves(e) && About(site, bindings, leaf, x))
    && (forall m :: m in r.missing <==> ReportsMissing(site, bindings, e, m))
    && forall a :: a in r.ambiguous <==> ReportsAmbiguous(site, bindings, e, a)
  }

  /** The conclusion is the head with what is bound to its participants, in the scopes of the context and from the
      sources of what was read. */
  ghost predicate Concludes(site: Site, bindings: map<string, Id>, head: Head, c: Conclusion)
  {
    && c.predicateId == head.predicateId && c.version == head.version && c.polarity == head.polarity
    && |c.participants| == |head.participants|
    && (forall i :: 0 <= i < |c.participants| ==> head.participants[i] in bindings && c.participants[i] == bindings[head.participants[i]])
    && ScopedBy(c.scope, site.context.scopes)
    && Ascending(c.sources) && SourcedBy(c.sources, c.dependencies, site.st.records)
  }

  /** The head is the rule's own participants, under the predicate version of the snapshot. */
  ghost predicate HeadStands(snapshot: Snapshot, body: RuleBody)
  {
    && body.head.participants == body.participants
    && body.head.predicateId in snapshot.predicates && snapshot.predicates[body.head.predicateId] == body.head.version
  }

  /** What a grounding says of its rule, bindings, truth, reads and conclusion. */
  ghost predicate Told(st: StoreState, rule: Id, bindings: map<string, Id>, snapshot: Id, context: Id, effective: set<Id>, r: GroundingResult)
    requires Prepared(st, rule, bindings, snapshot, context)
  {
    var site, body := SiteOf(st, snapshot, context, effective), st.snapshots[snapshot].rules[rule].body;
    && r.rule == rule && r.ruleVersion == st.snapshots[snapshot].rules[rule].version && r.snapshot == snapshot && r.context == context
    && |r.bindings| == |body.participants|
    && (forall i :: 0 <= i < |r.bindings| ==> body.participants[i] in bindings && r.bindings[i] == (body.participants[i], bindings[body.participants[i]]))
    && TruthTold(site, bindings, body.condition, r.truth)
    && ReadsTold(site, bindings, body.condition, r)
    && (r.conclusion.Some? <==> r.truth == True)
    && (r.conclusion.Some? ==>
          && r.conclusion.value.rule == rule && r.conclusion.value.ruleVersion == r.ruleVersion
          && r.conclusion.value.dependencies == r.dependencies
          && Concludes(site, bindings, body.head, r.conclusion.value))
  }

  lemma TruthExactly(site: Site, bindings: map<string, Id>, e: Expr)
    requires Evaluate(WorldOf(site), bindings, e, Reads([], [], [])).Yields?
    ensures TruthTold(site, bindings, e, Evaluate(WorldOf(site), bindings, e, Reads([], [], [])).truth)
  {
    var w := WorldOf(site);
    EvaluationIsFaithful(w, bindings, e, Reads([], [], []));
    UnsettledExactly(site, bindings, e);
    if e.Node? && IsSetOperator(e.op) {
      forall item
        ensures item in SetOf(w, bindings, e.left) <==> Given(site, bindings, e.left, item)
        ensures item in SetOf(w, bindings, e.right) <==> Given(site, bindings, e.right, item)
      {
        GivenExactly(site, bindings, e.left, item);
        GivenExactly(site, bindings, e.right, item);
      }
      SubsetIsGiven(site, bindings, e, SetOf(w, bindings, e.left), SetOf(w, bindings, e.right));
    }
  }

  lemma SubsetIsGiven(site: Site, bindings: map<string, Id>, e: Expr, left: set<string>, right: set<string>)
    requires e.Node? && IsSetOperator(e.op)
    requires forall item :: item in left <==> Given(site, bindings, e.left, item)
    requires forall item :: item in right <==> Given(site, bindings, e.right, item)
    ensures left <= right <==> forall item :: Given(site, bindings, e.left, item) ==> Given(site, bindings, e.right, item)
  {
    if forall item :: Given(site, bindings, e.left, item) ==> Given(site, bindings, e.right, item) {
      assert forall item :: item in left ==> item in right;
    }
    if left <= right {
      assert forall item :: item in left ==> item in right;
    }
  }

  lemma ReadsExactly(site: Site, bindings: map<string, Id>, e: Expr, r: GroundingResult)
    requires Evaluate(WorldOf(site), bindings, e, Reads([], [], [])).Yields?
    requires var after := Evaluate(WorldOf(site), bindings, e, Reads([], [], [])).after;
             r.dependencies == after.dependencies && r.missing == after.missing && r.ambiguous == after.ambiguous
    ensures ReadsTold(site, bindings, e, r)
  {
    var w := WorldOf(site);
    EvaluationIsFaithful(w, bindings, e, Reads([], [], []));
    FootprintExactly(w, bindings, e);
    forall leaf ensures forall x :: x in Found(w, bindings, leaf) <==> About(site, bindings, leaf, x) {
      FoundIsAbout(site, bindings, leaf);
    }
    forall m ensures m in r.missing <==> ReportsMissing(site, bindings, e, m) {
      MissingExactly(site, bindings, e, m);
    }
    forall a ensures a in r.ambiguous <==> ReportsAmbiguous(site, bindings, e, a) {
      AmbiguousExactly(site, bindings, e, a);
    }
  }

  lemma ConclusionExactly(st: StoreState, rule: Id, bindings: map<string, Id>, snapshot: Snapshot, context: Context, effective: set<Id>,
                          dependencies: seq<Id>)
    requires rule in snapshot.rules && BindingsFit(bindings, snapshot.rules[rule].body.participants, snapshot)
    requires HeadStands(snapshot, snapshot.rules[rule].body)
    ensures var c := ConclusionOf(st, rule, bindings, snapshot, context, dependencies);
            && c.rule == rule && c.ruleVersion == snapshot.rules[rule].version && c.dependencies == dependencies
            && Concludes(Site(st, snapshot, context, effective), bindings, snapshot.rules[rule].body.head, c)
  {
    var c := ConclusionOf(st, rule, bindings, snapshot, context, dependencies);
    var participants := snapshot.rules[rule].body.participants;
    assert forall i :: 0 <= i < |participants| ==> participants[i] in participants;
    ScopeExactly(c.scope, context.scopes);
    assert (set s | s in c.sources) == SourcesOf(st.records, dependencies);
    SourcesExactly(c.sources, dependencies, st.records);
  }

  /**
   * Exactly when a grounding is made and what it says: in a prepared environment, when the condition evaluates without
   * a failure and, if it holds, the head stands.
   */
  lemma GroundExactly(st: StoreState, rule: Id, bindings: map<string, Id>, snapshot: Id, context: Id, effective: set<Id>)
    ensures var r := Ground(st, rule, bindings, snapshot, context, effective);
            && (r.Ok? <==>
                  && Prepared(st, rule, bindings, snapshot, context)
                  && var site, body := SiteOf(st, snapshot, context, effective), st.snapshots[snapshot].rules[rule].body;
                  && Evaluable(site, bindings, body.condition)
                  && (Holds(site, bindings, body.condition) ==> HeadStands(st.snapshots[snapshot], body)))
            && (r.Ok? ==> Told(st, rule, bindings, snapshot, context, effective, r.value))
  {
    if snapshot in st.snapshots && rule in st.snapshots[snapshot].rules {
      BindsExactly(bindings, st.snapshots[snapshot].rules[rule].body.participants, st.snapshots[snapshot]);
    }
    assert Groundable(st, rule, bindings, snapshot, context) <==> Prepared(st, rule, bindings, snapshot, context);
    if Groundable(st, rule, bindings, snapshot, context) {
      var site, body := SiteOf(st, snapshot, context, effective), st.snapshots[snapshot].rules[rule].body;
      YieldsExactly(site, bindings, body.condition, Reads([], [], []));
      var o := Evaluate(WorldOf(site), bindings, body.condition, Reads([], [], []));
      if o.Yields? {
        TruthExactly(site, bindings, body.condition);
        GroundTold(st, rule, bindings, snapshot, context, effective);
      }
    }
  }

  lemma GroundTold(st: StoreState, rule: Id, bindings: map<string, Id>, snapshot: Id, context: Id, effective: set<Id>)
    requires Prepared(st, rule, bindings, snapshot, context) && Groundable(st, rule, bindings, snapshot, context)
    ensures var r := Ground(st, rule, bindings, snapshot, context, effective);
            r.Ok? ==> Told(st, rule, bindings, snapshot, context, effective, r.value)
  {
    var site, body := SiteOf(st, snapshot, context, effective), st.snapshots[snapshot].rules[rule].body;
    var result := Ground(st, rule, bindings, snapshot, context, effective);
    if result.Ok? {
      TruthExactly(site, bindings, body.condition);
      ReadsExactly(site, bindings, body.condition, result.value);
      if result.value.truth.True? {
        ConclusionExactly(st, rule, bindings, site.snapshot, site.context, effective, result.value.dependencies);
      }
      assert forall i :: 0 <= i < |body.participants| ==> body.participants[i] in body.participants;
    }
  }
}

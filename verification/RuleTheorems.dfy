/** Type soundness of admitted rules, and what an evaluation means and reads. */
module RuleTheorems {
  import opened Model
  import opened Ordering
  import opened Rules

  // ---------------------------------------------------------------- repetitions that admission overlooks

  /** No value other than the last one repeats an earlier one. */
  predicate DistinctButLast(values: seq<string>)
  {
    forall i, j :: 0 <= i < j < |values| - 1 ==> values[i] != values[j]
  }

  /** The list of `_unique_values` falls short exactly when a value before the last is repeated. */
  lemma {:induction false} UniqueValuesLength(result: seq<string>, values: seq<string>)
    ensures |UniqueValues(result, values)| <= |result| + |values|
    ensures |UniqueValues(result, values)| == |result| + |values|
       <==> DistinctButLast(values) && forall i :: 0 <= i < |values| - 1 ==> values[i] !in result
    decreases |values|
  {
    if values != [] && values[0] !in result {
      var rest := values[1..];
      UniqueValuesLength(result + [values[0]], rest);
      assert forall i :: 0 <= i < |rest| ==> rest[i] == values[i + 1];
      if DistinctButLast(rest) && (forall i :: 0 <= i < |rest| - 1 ==> rest[i] !in result + [values[0]]) {
        forall i, j | 0 <= i < j < |values| - 1 ensures values[i] != values[j] {
          assert values[j] == rest[j - 1];
          if i > 0 {
            assert values[i] == rest[i - 1];
          }
        }
      }
    }
  }

  /** Admission sees every repetition except one by the last value. */
  lemma SeemsDistinctExactly(values: seq<string>)
    ensures SeemsDistinct(values) <==> DistinctButLast(values)
    ensures DistinctNames(values) ==> SeemsDistinct(values)
    ensures SeemsDistinct(values) && !DistinctNames(values)
       ==> exists i :: 0 <= i < |values| - 1 && values[i] == values[|values| - 1]
  {
    UniqueValuesLength([], values);
  }

  // ---------------------------------------------------------------- which operators occur

  /** Only the three known operators occur where evaluation looks. */
  predicate AllKnown(e: Expr)
  {
    e.Node? && if IsSetOperator(e.op) then AllKnown(e.left) && AllKnown(e.right) else e.op == "property"
  }

  /** No operand carries a stray `when` key. */
  predicate NoStrays(e: Expr)
  {
    e.Node? && IsSetOperator(e.op) ==>
      && (e.left.Node? ==> e.left.stray.None?) && NoStrays(e.left)
      && (e.right.Node? ==> e.right.stray.None?) && NoStrays(e.right)
  }

  /** The static check finds a type exactly for expressions built from known operators. */
  lemma {:induction false} TypedExactly(participants: seq<string>, vocabulary: Vocabulary, exact: bool, e: Expr)
    requires CheckExpr(participants, vocabulary, exact, e).Ok?
    ensures CheckExpr(participants, vocabulary, exact, e).value.Some? <==> AllKnown(e)
  {
    if IsSetOperator(e.op) {
      TypedExactly(participants, vocabulary, exact, e.left);
      TypedExactly(participants, vocabulary, exact, e.right);
    }
  }

  /** Without stray keys the support mark says exactly that. */
  lemma {:induction false} SupportedExactly(e: Expr)
    requires NoStrays(e)
    ensures Supported(e) <==> AllKnown(e)
  {
    if e.Node? && IsSetOperator(e.op) {
      SupportedExactly(e.left);
      SupportedExactly(e.right);
    }
  }

  // ---------------------------------------------------------------- type soundness

  /** Every stored property value has the kind its vocabulary entry declares. */
  ghost predicate WellTyped(records: map<Id, Record>, vocabulary: Vocabulary)
  {
    forall x :: x in records && records[x].Property? ==>
      && (records[x].property, records[x].version) in vocabulary.properties
      && records[x].value.Kind() == vocabulary.properties[(records[x].property, records[x].version)]
  }

  /** `later` knows everything `earlier` does. */
  ghost predicate ExtendsVocabulary(earlier: Vocabulary, later: Vocabulary)
  {
    && (forall key :: key in earlier.properties ==> key in later.properties && later.properties[key] == earlier.properties[key])
    && (forall key :: key in earlier.predicates ==> key in later.predicates && later.predicates[key] == earlier.predicates[key])
  }

  /** The two failures that typing does not exclude. */
  predicate Tolerated(f: Failure)
  {
    f.VersionOutsideSnapshot? || f.NotExact?
  }

  ghost predicate Agrees(o: Outcome, found: ExprType)
  {
    match o
    case Fails(f) => Tolerated(f)
    case Yields(t, items, _) =>
      if found.Truthful? then items.None? else t != False && (t == True <==> items.Some?)
  }

  lemma ReadAgrees(w: World, bindings: map<string, Id>, participants: seq<string>, admitted: Vocabulary, e: Expr, s: Reads)
    requires e.Node? && CheckProperty(participants, admitted, true, e) == Ok(Some(OfKind(FiniteSetKind)))
    requires forall name :: name in participants ==> name in bindings
    requires ExtendsVocabulary(admitted, w.vocabulary) && WellTyped(w.records, w.vocabulary)
    ensures Agrees(Read(w, bindings, e, s), OfKind(FiniteSetKind))
  {
  }

  /** Evaluating a well-typed expression yields what its type promises or fails in a tolerated way. */
  lemma {:induction false} TypedEvaluates(w: World, bindings: map<string, Id>, participants: seq<string>, admitted: Vocabulary,
                                          e: Expr, found: ExprType, s: Reads)
    requires CheckExpr(participants, admitted, true, e) == Ok(Some(found))
    requires found == Truthful || found == OfKind(FiniteSetKind)
    requires forall name :: name in participants ==> name in bindings
    requires ExtendsVocabulary(admitted, w.vocabulary) && WellTyped(w.records, w.vocabulary)
    ensures Agrees(Evaluate(w, bindings, e, s), found)
  {
    if e.op == "property" {
      ReadAgrees(w, bindings, participants, admitted, e, s);
    } else {
      TypedEvaluates(w, bindings, participants, admitted, e.left, OfKind(FiniteSetKind), s);
      var left := Evaluate(w, bindings, e.left, s);
      if left.Yields? {
        TypedEvaluates(w, bindings, participants, admitted, e.right, OfKind(FiniteSetKind), left.after);
      }
    }
  }

  /** An expression with an unknown operator never yields anything, whatever it is evaluated over. */
  lemma {:induction false} UnknownNeverYields(w: World, bindings: map<string, Id>, e: Expr, s: Reads)
    requires !AllKnown(e)
    ensures Evaluate(w, bindings, e, s).Fails?
  {
    if e.Node? && IsSetOperator(e.op) {
      if !AllKnown(e.left) {
        UnknownNeverYields(w, bindings, e.left, s);
      } else {
        var left := Evaluate(w, bindings, e.left, s);
        if left.Yields? {
          UnknownNeverYields(w, bindings, e.right, left.after);
        }
      }
    }
  }

  /** The situations an admitted rule can be evaluated in. */
  ghost predicate Suits(w: World, bindings: map<string, Id>, admitted: Vocabulary, rule: Rule)
  {
    && (forall name :: name in rule.body.participants ==> name in bindings)
    && ExtendsVocabulary(admitted, w.vocabulary) && WellTyped(w.records, w.vocabulary)
  }

  /** Every property node finds its version in the world, and a single match is always exact. */
  predicate Benign(w: World, bindings: map<string, Id>, e: Expr)
  {
    e.Node? ==>
      if IsSetOperator(e.op) then Benign(w, bindings, e.left) && Benign(w, bindings, e.right)
      else e.op == "property" ==>
        && e.version.Version? && e.version.text != ""
        && e.property in w.properties && w.properties[e.property] == e.version.text
        && (e.participant in bindings ==>
              forall x :: x in Matches(w, bindings[e.participant], e.property, e.version.text) ==> w.records[x].epistemic.Exact?)
  }

  lemma {:induction false} BenignYields(w: World, bindings: map<string, Id>, participants: seq<string>, admitted: Vocabulary,
                                        e: Expr, found: ExprType, s: Reads)
    requires CheckExpr(participants, admitted, true, e) == Ok(Some(found))
    requires found == Truthful || found == OfKind(FiniteSetKind)
    requires forall name :: name in participants ==> name in bindings
    requires ExtendsVocabulary(admitted, w.vocabulary) && WellTyped(w.records, w.vocabulary) && Benign(w, bindings, e)
    ensures Evaluate(w, bindings, e, s).Yields?
  {
    TypedEvaluates(w, bindings, participants, admitted, e, found, s);
    if IsSetOperator(e.op) {
      BenignYields(w, bindings, participants, admitted, e.left, OfKind(FiniteSetKind), s);
      var left := Evaluate(w, bindings, e.left, s);
      BenignYields(w, bindings, participants, admitted, e.right, OfKind(FiniteSetKind), left.after);
    } else {
      var found := SortNames(Matches(w, bindings[e.participant], e.property, e.version.text));
      assert found != [] ==> found[0] in found;
    }
  }

  /**
   * Type soundness: a rule whose condition uses known operators only, evaluated over admitted records,
   * fails at most because a property version is not the snapshot's or a value is not exact, and a TRUE
   * or FALSE result comes from a subset test at the root.
   */
  lemma AdmittedIsTypeSafe(w: World, bindings: map<string, Id>, admitted: Vocabulary, version: string, body: RuleBody, s: Reads)
    requires AdmitRule(admitted, version, body).Ok?
    requires var rule := AdmitRule(admitted, version, body).value;
             AllKnown(rule.body.condition) && Suits(w, bindings, admitted, rule)
    ensures var rule := AdmitRule(admitted, version, body).value;
            && rule.body.condition.op == "set_subset"
            && Agrees(Evaluate(w, bindings, rule.body.condition, s), Truthful)
  {
    var rule := AdmitRule(admitted, version, body).value;
    TypedExactly(rule.body.participants, admitted, true, rule.body.condition);
    TypedEvaluates(w, bindings, rule.body.participants, admitted, rule.body.condition, Truthful, s);
  }

  /**
   * Exactly when the support mark can be trusted: wherever nothing else stands in the way, a supported
   * rule yields a truth if and only if its condition uses known operators only.
   */
  lemma SupportMarkExactly(w: World, bindings: map<string, Id>, admitted: Vocabulary, version: string, body: RuleBody, s: Reads)
    requires AdmitRule(admitted, version, body).Ok? && AdmitRule(admitted, version, body).value.supported
    requires var rule := AdmitRule(admitted, version, body).value;
             Suits(w, bindings, admitted, rule) && Benign(w, bindings, rule.body.condition)
    ensures var rule := AdmitRule(admitted, version, body).value;
            && (Evaluate(w, bindings, rule.body.condition, s).Yields? <==> AllKnown(rule.body.condition))
            && (NoStrays(rule.body.condition) ==> AllKnown(rule.body.condition))
  {
    var rule := AdmitRule(admitted, version, body).value;
    if NoStrays(rule.body.condition) {
      SupportedExactly(rule.body.condition);
    }
    if AllKnown(rule.body.condition) {
      TypedExactly(rule.body.participants, admitted, true, rule.body.condition);
      BenignYields(w, bindings, rule.body.participants, admitted, rule.body.condition, Truthful, s);
    } else {
      UnknownNeverYields(w, bindings, rule.body.condition, s);
    }
  }

  function PropertyNode(): Expr
  {
    Node("property", "x", "p", Version("1"), NotAnObject, NotAnObject, None)
  }

  /** A condition whose left operand has an unknown operator but carries a supported `when`. */
  function StrayCondition(): Expr
  {
    Node("set_subset", "", "", NoVersion,
         Node("other", "", "", NoVersion, NotAnObject, NotAnObject, Some(PropertyNode())),
         PropertyNode(), None)
  }

  /** The failing family has members: such a rule is admitted as supported and can never be evaluated. */
  lemma StrayKeyMisleadsSupport(w: World, bindings: map<string, Id>, s: Reads)
    ensures var admitted := Vocabulary(map[("q", "1") := 1], map[("p", "1") := FiniteSetKind]);
            var body := RuleBody(["x"], Head("q", "1", ["x"], Positive), StrayCondition());
            && AdmitRule(admitted, "1", body) == Ok(Rule("1", body, true))
            && Evaluate(w, bindings, StrayCondition(), s) == Fails(UnsupportedOperator)
  {
    var admitted := Vocabulary(map[("q", "1") := 1], map[("p", "1") := FiniteSetKind]);
    var body := RuleBody(["x"], Head("q", "1", ["x"], Positive), StrayCondition());
    var e := StrayCondition();
    assert Normalize(admitted, e.left) == Ok(e.left) && Normalize(admitted, e.right) == Ok(e.right);
    assert CheckExpr(["x"], admitted, true, e.left) == Ok(None);
    assert CheckExpr(["x"], admitted, true, e.right) == Ok(Some(OfKind(FiniteSetKind)));
    assert OperandSupported(e.left) && OperandSupported(e.right);
  }

  // ---------------------------------------------------------------- what an evaluation means

  /** The property nodes in the order in which they are read. */
  function Leaves(e: Expr): seq<Expr>
  {
    if e.NotAnObject? then []
    else if IsSetOperator(e.op) then Leaves(e.left) + Leaves(e.right)
    else if e.op == "property" then [e] else []
  }

  /** The visible records a property node is about. */
  function Found(w: World, bindings: map<string, Id>, leaf: Expr): set<Id>
  {
    if leaf.Node? && leaf.participant in bindings && leaf.version.Version?
    then Matches(w, bindings[leaf.participant], leaf.property, leaf.version.text) else {}
  }

  function ReadIds(w: World, bindings: map<string, Id>, leaves: seq<Expr>): seq<Id>
  {
    if leaves == [] then [] else SortNames(Found(w, bindings, leaves[0])) + ReadIds(w, bindings, leaves[1..])
  }

  function MissingAt(w: World, bindings: map<string, Id>, leaf: Expr): seq<MissingRead>
  {
    if leaf.Node? && leaf.participant in bindings && leaf.version.Version? && Found(w, bindings, leaf) == {}
    then [MissingRead(leaf.participant, bindings[leaf.participant], leaf.property, leaf.version.text)] else []
  }

  function MissingOf(w: World, bindings: map<string, Id>, leaves: seq<Expr>): seq<MissingRead>
  {
    if leaves == [] then [] else MissingAt(w, bindings, leaves[0]) + MissingOf(w, bindings, leaves[1..])
  }

  function AmbiguousAt(w: World, bindings: map<string, Id>, leaf: Expr): seq<AmbiguousRead>
  {
    if leaf.Node? && leaf.participant in bindings && leaf.version.Version? && |Found(w, bindings, leaf)| > 1
    then [AmbiguousRead(leaf.participant, bindings[leaf.participant], leaf.property, leaf.version.text,
                        SortNames(Found(w, bindings, leaf)))] else []
  }

  function AmbiguousOf(w: World, bindings: map<string, Id>, leaves: seq<Expr>): seq<AmbiguousRead>
  {
    if leaves == [] then [] else AmbiguousAt(w, bindings, leaves[0]) + AmbiguousOf(w, bindings, leaves[1..])
  }

  /** The set an expression denotes when every property node has exactly one visible record. */
  function SetOf(w: World, bindings: map<string, Id>, e: Expr): set<string>
  {
    if e.NotAnObject? then {}
    else if IsSetOperator(e.op) then SetOf(w, bindings, e.left) + SetOf(w, bindings, e.right)
    else if e.op != "property" then {}
    else set x, item | x in Found(w, bindings, e) && x in w.records && w.records[x].Property?
                       && w.records[x].value.FiniteSet? && item in w.records[x].value.items :: item
  }

  /** Some property node has no visible record or several. */
  predicate SomeUnsettled(w: World, bindings: map<string, Id>, leaves: seq<Expr>)
  {
    exists leaf :: leaf in leaves && |Found(w, bindings, leaf)| != 1
  }

  lemma {:induction false} AddSet(items: seq<string>, more: seq<string>)
    ensures forall x :: x in Add(items, more) <==> x in items || x in more
    decreases |more|
  {
    if more != [] {
      AddSet(if more[0] in items then items else items + [more[0]], more[1..]);
      assert more == [more[0]] + more[1..];
    }
  }

  lemma {:induction false} DependAllConcat(dependencies: seq<Id>, a: seq<Id>, b: seq<Id>)
    ensures DependAll(dependencies, a + b) == DependAll(DependAll(dependencies, a), b)
    decreases |a|
  {
    if a == [] {
      assert a + b == b;
    } else {
      assert (a + b)[1..] == a[1..] + b;
      DependAllConcat(Depend(dependencies, a[0]), a[1..], b);
    }
  }

  lemma {:induction false} ReadIdsConcat(w: World, bindings: map<string, Id>, a: seq<Expr>, b: seq<Expr>)
    ensures ReadIds(w, bindings, a + b) == ReadIds(w, bindings, a) + ReadIds(w, bindings, b)
    decreases |a|
  {
    if a == [] {
      assert a + b == b;
    } else {
      assert (a + b)[0] == a[0] && (a + b)[1..] == a[1..] + b;
      ReadIdsConcat(w, bindings, a[1..], b);
      Associates(SortNames(Found(w, bindings, a[0])), ReadIds(w, bindings, a[1..]), ReadIds(w, bindings, b));
    }
  }

  lemma {:induction false} MissingConcat(w: World, bindings: map<string, Id>, a: seq<Expr>, b: seq<Expr>)
    ensures MissingOf(w, bindings, a + b) == MissingOf(w, bindings, a) + MissingOf(w, bindings, b)
    decreases |a|
  {
    if a == [] {
      assert a + b == b;
    } else {
      assert (a + b)[0] == a[0] && (a + b)[1..] == a[1..] + b;
      MissingConcat(w, bindings, a[1..], b);
      Associates(MissingAt(w, bindings, a[0]), MissingOf(w, bindings, a[1..]), MissingOf(w, bindings, b));
    }
  }

  lemma {:induction false} AmbiguousConcat(w: World, bindings: map<string, Id>, a: seq<Expr>, b: seq<Expr>)
    ensures AmbiguousOf(w, bindings, a + b) == AmbiguousOf(w, bindings, a) + AmbiguousOf(w, bindings, b)
    decreases |a|
  {
    if a == [] {
      assert a + b == b;
    } else {
      assert (a + b)[0] == a[0] && (a + b)[1..] == a[1..] + b;
      AmbiguousConcat(w, bindings, a[1..], b);
      Associates(AmbiguousAt(w, bindings, a[0]), AmbiguousOf(w, bindings, a[1..]), AmbiguousOf(w, bindings, b));
    }
  }

  lemma Associates<T>(a: seq<T>, b: seq<T>, c: seq<T>)
    ensures a + (b + c) == (a + b) + c
  {
  }

  /** What the truth and the value of an evaluation say. */
  ghost predicate MeansWhatItSays(w: World, bindings: map<string, Id>, e: Expr, o: Outcome)
  {
    o.Yields? ==>
      && (o.truth == Unsettled <==> SomeUnsettled(w, bindings, Leaves(e)))
      && (o.truth == True && o.items.None? ==> e.Node? && e.op == "set_subset" && SetOf(w, bindings, e.left) <= SetOf(w, bindings, e.right))
      && (o.truth == False ==> e.Node? && e.op == "set_subset" && !(SetOf(w, bindings, e.left) <= SetOf(w, bindings, e.right)))
      && (o.items.Some? ==> forall x :: x in o.items.value <==> x in SetOf(w, bindings, e))
  }

  /** What an evaluation has read. */
  ghost predicate ReadsWhatItUses(w: World, bindings: map<string, Id>, e: Expr, s: Reads, o: Outcome)
  {
    o.Yields? ==>
      && o.after.dependencies == DependAll(s.dependencies, ReadIds(w, bindings, Leaves(e)))
      && o.after.missing == s.missing + MissingOf(w, bindings, Leaves(e))
      && o.after.ambiguous == s.ambiguous + AmbiguousOf(w, bindings, Leaves(e))
  }

  ghost predicate Faithful(w: World, bindings: map<string, Id>, e: Expr, s: Reads, o: Outcome)
  {
    MeansWhatItSays(w, bindings, e, o) && ReadsWhatItUses(w, bindings, e, s, o)
  }

  lemma SingleLeaf(w: World, bindings: map<string, Id>, e: Expr)
    requires e.Node? && e.op == "property"
    ensures Leaves(e) == [e]
    ensures SomeUnsettled(w, bindings, [e]) <==> |Found(w, bindings, e)| != 1
    ensures ReadIds(w, bindings, [e]) == SortNames(Found(w, bindings, e))
    ensures MissingOf(w, bindings, [e]) == MissingAt(w, bindings, e)
    ensures AmbiguousOf(w, bindings, [e]) == AmbiguousAt(w, bindings, e)
  {
    assert e in [e];
  }

  lemma SingleMatch(matches: set<Id>)
    requires |matches| == 1
    ensures SortNames(matches)[0] in matches && matches == {SortNames(matches)[0]}
  {
    var found := SortNames(matches);
    assert found[0] in found;
    assert forall x :: x in matches ==> x in found;
  }

  lemma ReadMeans(w: World, bindings: map<string, Id>, e: Expr, s: Reads)
    requires e.Node? && e.op == "property"
    ensures MeansWhatItSays(w, bindings, e, Read(w, bindings, e, s))
  {
    SingleLeaf(w, bindings, e);
    if Read(w, bindings, e, s).Yields? && |Found(w, bindings, e)| == 1 {
      SingleMatch(Found(w, bindings, e));
    }
  }

  lemma DependOne(dependencies: seq<Id>, found: seq<Id>)
    requires |found| == 1
    ensures DependAll(dependencies, found) == Depend(dependencies, found[0])
  {
    assert found[1..] == [];
  }

  /** What one property node adds to the reading state. */
  lemma ReadAdds(w: World, bindings: map<string, Id>, e: Expr, s: Reads)
    requires e.Node? && e.op == "property" && Read(w, bindings, e, s).Yields?
    ensures var after := Read(w, bindings, e, s).after;
            && after.dependencies == DependAll(s.dependencies, SortNames(Found(w, bindings, e)))
            && after.missing == s.missing + MissingAt(w, bindings, e)
            && after.ambiguous == s.ambiguous + AmbiguousAt(w, bindings, e)
  {
    var found := SortNames(Found(w, bindings, e));
    if |found| == 1 {
      DependOne(s.dependencies, found);
    }
  }

  lemma ReadUses(w: World, bindings: map<string, Id>, e: Expr, s: Reads)
    requires e.Node? && e.op == "property"
    ensures ReadsWhatItUses(w, bindings, e, s, Read(w, bindings, e, s))
  {
    SingleLeaf(w, bindings, e);
    if Read(w, bindings, e, s).Yields? {
      ReadAdds(w, bindings, e, s);
    }
  }

  /**
   * The meaning and the footprint of an evaluation: UNKNOWN exactly when some property node has no
   * visible record or more than one, otherwise the set-theoretic value; the dependencies are exactly
   * the records read, in order of first read.
   */
  lemma {:induction false} EvaluationIsFaithful(w: World, bindings: map<string, Id>, e: Expr, s: Reads)
    ensures Faithful(w, bindings, e, s, Evaluate(w, bindings, e, s))
  {
    if e.Node? && e.op == "property" {
      ReadMeans(w, bindings, e, s);
      ReadUses(w, bindings, e, s);
    } else if e.Node? && IsSetOperator(e.op) {
      EvaluationIsFaithful(w, bindings, e.left, s);
      var left := Evaluate(w, bindings, e.left, s);
      if left.Yields? {
        EvaluationIsFaithful(w, bindings, e.right, left.after);
        var right := Evaluate(w, bindings, e.right, left.after);
        if right.Yields? {
          OperandsAreFaithful(w, bindings, e, s, left, right);
        }
      }
    }
  }

  lemma OperandsAreFaithful(w: World, bindings: map<string, Id>, e: Expr, s: Reads, left: Outcome, right: Outcome)
    requires e.Node? && IsSetOperator(e.op) && left.Yields? && right.Yields?
    requires Faithful(w, bindings, e.left, s, left) && Faithful(w, bindings, e.right, left.after, right)
    requires left == Evaluate(w, bindings, e.left, s) && right == Evaluate(w, bindings, e.right, left.after)
    ensures Faithful(w, bindings, e, s, Evaluate(w, bindings, e, s))
  {
    OperandsMean(w, bindings, e, s, left, right);
    var leftLeaves, rightLeaves := Leaves(e.left), Leaves(e.right);
    ReadIdsConcat(w, bindings, leftLeaves, rightLeaves);
    MissingConcat(w, bindings, leftLeaves, rightLeaves);
    DependAllConcat(s.dependencies, ReadIds(w, bindings, leftLeaves), ReadIds(w, bindings, rightLeaves));
    Associates(s.missing, MissingOf(w, bindings, leftLeaves), MissingOf(w, bindings, rightLeaves));
    AmbiguousConcat(w, bindings, leftLeaves, rightLeaves);
    Associates(s.ambiguous, AmbiguousOf(w, bindings, leftLeaves), AmbiguousOf(w, bindings, rightLeaves));
  }

  lemma OperandsMean(w: World, bindings: map<string, Id>, e: Expr, s: Reads, left: Outcome, right: Outcome)
    requires e.Node? && IsSetOperator(e.op) && left.Yields? && right.Yields?
    requires MeansWhatItSays(w, bindings, e.left, left) && MeansWhatItSays(w, bindings, e.right, right)
    requires left == Evaluate(w, bindings, e.left, s) && right == Evaluate(w, bindings, e.right, left.after)
    ensures MeansWhatItSays(w, bindings, e, Evaluate(w, bindings, e, s))
  {
    UnsettledConcat(w, bindings, Leaves(e.left), Leaves(e.right));
    if left.items.Some? && right.items.Some? {
      AddSet(left.items.value, right.items.value);
    }
  }

  lemma UnsettledConcat(w: World, bindings: map<string, Id>, a: seq<Expr>, b: seq<Expr>)
    ensures SomeUnsettled(w, bindings, a + b) <==> SomeUnsettled(w, bindings, a) || SomeUnsettled(w, bindings, b)
  {
    assert forall leaf :: leaf in a + b <==> leaf in a || leaf in b;
  }

  /** The dependency list repeats nothing and lists exactly what was there or was read. */
  lemma {:induction false} DependAllSpec(dependencies: seq<Id>, ids: seq<Id>)
    ensures forall x :: x in DependAll(dependencies, ids) <==> x in dependencies || x in ids
    ensures DistinctNames(dependencies) ==> DistinctNames(DependAll(dependencies, ids))
    decreases |ids|
  {
    if ids != [] {
      DependAllSpec(Depend(dependencies, ids[0]), ids[1..]);
      assert ids == [ids[0]] + ids[1..];
    }
  }

  lemma {:induction false} ReadIdsMembers(w: World, bindings: map<string, Id>, leaves: seq<Expr>)
    ensures forall x :: x in ReadIds(w, bindings, leaves) <==> exists leaf :: leaf in leaves && x in Found(w, bindings, leaf)
  {
    if leaves != [] {
      ReadIdsMembers(w, bindings, leaves[1..]);
      assert forall leaf :: leaf in leaves <==> leaf == leaves[0] || leaf in leaves[1..];
    }
  }

  /** A whole evaluation depends on exactly the records its property nodes are about, each listed once. */
  lemma FootprintExactly(w: World, bindings: map<string, Id>, e: Expr)
    requires Evaluate(w, bindings, e, Reads([], [], [])).Yields?
    ensures var dependencies := Evaluate(w, bindings, e, Reads([], [], [])).after.dependencies;
            && DistinctNames(dependencies)
            && forall x :: x in dependencies <==> exists leaf :: leaf in Leaves(e) && x in Found(w, bindings, leaf)
  {
    EvaluationIsFaithful(w, bindings, e, Reads([], [], []));
    DependAllSpec([], ReadIds(w, bindings, Leaves(e)));
    ReadIdsMembers(w, bindings, Leaves(e));
  }
}

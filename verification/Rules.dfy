/**
 * The rule language: the static check at admission (src/atlas/store.py, `_validate_rule_payload` to
 * `_rule_supported`) and the three-valued evaluator with its reading state (src/atlas/rules.py).
 */
module Rules {
  import opened Model
  import opened Ordering

  // ---------------------------------------------------------------- admission

  /** What an expression yields: a value of some kind, or a truth. */
  datatype ExprType = OfKind(kind: ValueKind) | Truthful

  function Versions(vocabulary: Vocabulary, property: string): set<string>
  {
    set key | key in vocabulary.properties && key.0 == property :: key.1
  }

  predicate IsSetOperator(op: string)
  {
    op == "set_union" || op == "set_subset"
  }

  /** `check_expr`: no type at all means that some operator is not known. */
  function CheckExpr(participants: seq<string>, vocabulary: Vocabulary, exact: bool, e: Expr): Result<Option<ExprType>>
  {
    if e.NotAnObject? then Err("invalid rule expression")
    else if e.op == "" then Err("invalid rule expression operator")
    else if e.op == "property" then CheckProperty(participants, vocabulary, exact, e)
    else if IsSetOperator(e.op) then
      var left, right := CheckExpr(participants, vocabulary, exact, e.left), CheckExpr(participants, vocabulary, exact, e.right);
      if left.Err? then Err(left.reason)
      else if right.Err? then Err(right.reason)
      else if left.value.None? || right.value.None? then Ok(None)
      else if left.value != Some(OfKind(FiniteSetKind)) || right.value != Some(OfKind(FiniteSetKind)) then
        Err("set operator requires finite_set<symbol> operands")
      else Ok(Some(if e.op == "set_union" then OfKind(FiniteSetKind) else Truthful))
    else Ok(None)
  }

  function CheckProperty(participants: seq<string>, vocabulary: Vocabulary, exact: bool, e: Expr): Result<Option<ExprType>>
    requires e.Node?
  {
    if e.participant == "" || e.property == "" then Err("invalid property expression")
    else if e.participant !in participants then Err("unresolved rule participant")
    else
      match e.version
      case Version(text) =>
        if (e.property, text) !in vocabulary.properties then Err("unresolved rule property version")
        else Ok(Some(OfKind(vocabulary.properties[(e.property, text)])))
      case _ =>
        var versions := Versions(vocabulary, e.property);
        if exact || |versions| != 1 then Err("rule property version is not resolved")
        else Ok(Some(OfKind(vocabulary.properties[(e.property, Only(versions))])))
  }

  function Only(names: set<string>): (name: string)
    requires |names| == 1
    ensures name in names && names == {name}
  {
    assert names != {};
    var name := Least(names);
    assert |names - {name}| == 0;
    assert names == {name} + (names - {name});
    name
  }

  /** `normalize_expr`: a property node without a version key receives the only known version. */
  function Normalize(vocabulary: Vocabulary, e: Expr): Result<Expr>
  {
    if e.NotAnObject? then Ok(e)
    else if e.op == "property" && e.version.NoVersion? then
      var versions := Versions(vocabulary, e.property);
      if e.property == "" || |versions| != 1 then Err("ambiguous rule property version")
      else Ok(e.(version := Version(Only(versions))))
    else if IsSetOperator(e.op) then
      var left, right := Normalize(vocabulary, e.left), Normalize(vocabulary, e.right);
      if left.Err? then left
      else if right.Err? then right
      else Ok(e.(left := left.value, right := right.value))
    else Ok(e)
  }

  /** `_rule_supported` below the root: a stray `when` key of an operand is followed instead of the operand. */
  function OperandSupported(e: Expr): bool
    decreases e, 1
  {
    e.Node? && match e.stray
               case None => Supported(e)
               case Some(inner) => Supported(inner)
  }

  /** `_rule_supported` of a rule's condition. */
  function Supported(e: Expr): bool
    decreases e, 0
  {
    e.Node? && if IsSetOperator(e.op) then OperandSupported(e.left) && OperandSupported(e.right) else e.op == "property"
  }

  predicate DistinctNames(names: seq<string>)
  {
    forall i, j :: 0 <= i < j < |names| ==> names[i] != names[j]
  }

  /** `_unique_values`: the values up to and including the first that repeats an earlier one. */
  function UniqueValues(result: seq<string>, values: seq<string>): seq<string>
    decreases |values|
  {
    if values == [] then result
    else if values[0] in result then result + [values[0]]
    else UniqueValues(result + [values[0]], values[1..])
  }

  /** The loop of `_unique_values`. */
  method ListUniqueValues(values: seq<string>) returns (result: seq<string>)
    ensures result == UniqueValues([], values)
  {
    result := [];
    for i := 0 to |values|
      invariant UniqueValues(result, values[i..]) == UniqueValues([], values)
    {
      assert values[i..][0] == values[i] && values[i..][1..] == values[i + 1..];
      if values[i] in result {
        return result + [values[i]];
      }
      result := result + [values[i]];
    }
  }

  /** The test that admission makes for repetitions: the list above is as long as the values. */
  predicate SeemsDistinct(values: seq<string>)
  {
    |UniqueValues([], values)| == |values|
  }

  predicate HeadFits(vocabulary: Vocabulary, body: RuleBody)
  {
    && (forall name :: name in body.participants ==> name != "")
    && SeemsDistinct(body.participants)
    && body.head.participants == body.participants
    && (body.head.predicateId, body.head.version) in vocabulary.predicates
    && |body.participants| == vocabulary.predicates[(body.head.predicateId, body.head.version)]
  }

  /** The admission of one rule body: head, normalisation, static check, support mark. */
  function AdmitRule(vocabulary: Vocabulary, version: string, body: RuleBody): Result<Rule>
  {
    if !HeadFits(vocabulary, body) then Err("invalid rule head")
    else
      match Normalize(vocabulary, body.condition)
      case Err(reason) => Err(reason)
      case Ok(condition) =>
        match CheckExpr(body.participants, vocabulary, true, condition)
        case Err(reason) => Err(reason)
        case Ok(found) =>
          if found.Some? && found != Some(Truthful) then Err("rule condition must be a truth-valued expression")
          else Ok(Rule(version, body.(condition := condition), Supported(condition)))
  }

  // ---------------------------------------------------------------- evaluation

  datatype Failure =
    | InvalidExpression | InvalidProperty | VersionOutsideSnapshot | UnresolvedVocabulary
    | IncompatibleValue | NotExact | OperandNotASet | UnsupportedOperator

  /** What one evaluation reads from: the versions and scopes it is bound to and the records it may see. */
  datatype World = World(vocabulary: Vocabulary, properties: map<string, string>, scopes: seq<string>,
                         records: map<Id, Record>, visible: set<Id>)

  /** The reading state: dependencies without repetition in order of first read, and the failed reads. */
  datatype Reads = Reads(dependencies: seq<Id>, missing: seq<MissingRead>, ambiguous: seq<AmbiguousRead>)

  datatype Outcome =
    | Yields(truth: Truth, items: Option<seq<string>>, after: Reads)
    | Fails(failure: Failure)

  function Depend(dependencies: seq<Id>, id: Id): seq<Id>
  {
    if id in dependencies then dependencies else dependencies + [id]
  }

  lemma RecordedOnce(before: seq<Id>, id: Id, after: seq<Id>)
    requires before <= after && |after| <= |before| + 1 && id in after
    requires id in before ==> after == before
    ensures after == Depend(before, id)
  {
    if id !in before {
      assert after == before + [after[|before|]];
    }
  }

  function DependAll(dependencies: seq<Id>, ids: seq<Id>): seq<Id>
    decreases |ids|
  {
    if ids == [] then dependencies else DependAll(Depend(dependencies, ids[0]), ids[1..])
  }

  /** The records a property node can be about. */
  function Matches(w: World, description: Id, property: string, version: string): set<Id>
  {
    set x | x in w.records && x in w.visible && w.records[x].Property?
            && w.records[x].description == description && w.records[x].property == property
            && w.records[x].version == version && w.records[x].place in w.scopes
  }

  function Add(items: seq<string>, more: seq<string>): seq<string>
    decreases |more|
  {
    if more == [] then items
    else Add(if more[0] in items then items else items + [more[0]], more[1..])
  }

  /** `_expr` of a property node. */
  function Read(w: World, bindings: map<string, Id>, e: Expr, s: Reads): Outcome
    requires e.Node?
  {
    if e.participant !in bindings || e.property == "" then Fails(InvalidProperty)
    else if !e.version.Version? || e.version.text == "" || e.property !in w.properties
            || w.properties[e.property] != e.version.text then Fails(VersionOutsideSnapshot)
    else if (e.property, e.version.text) !in w.vocabulary.properties then Fails(UnresolvedVocabulary)
    else
      var description, version := bindings[e.participant], e.version.text;
      var found := SortNames(Matches(w, description, e.property, version));
      if found == [] then
        Yields(Unsettled, None, s.(missing := s.missing + [MissingRead(e.participant, description, e.property, version)]))
      else if |found| > 1 then
        Yields(Unsettled, None,
               s.(dependencies := DependAll(s.dependencies, found),
                  ambiguous := s.ambiguous + [AmbiguousRead(e.participant, description, e.property, version, found)]))
      else
        assert found[0] in found;
        var record := w.records[found[0]];
        if w.vocabulary.properties[(e.property, version)] != FiniteSetKind || !record.value.FiniteSet? then Fails(IncompatibleValue)
        else if !record.epistemic.Exact? then Fails(NotExact)
        else Yields(True, Some(record.value.items), s.(dependencies := Depend(s.dependencies, found[0])))
  }

  predicate Contained(items: seq<string>, others: seq<string>)
  {
    forall item :: item in items ==> item in others
  }

  /** `_expr`: both operands are always evaluated, the left one first. */
  function Evaluate(w: World, bindings: map<string, Id>, e: Expr, s: Reads): Outcome
  {
    if e.NotAnObject? || e.op == "" then Fails(InvalidExpression)
    else if e.op == "property" then Read(w, bindings, e, s)
    else if IsSetOperator(e.op) then
      var left := Evaluate(w, bindings, e.left, s);
      if left.Fails? then left
      else
        var right := Evaluate(w, bindings, e.right, left.after);
        if right.Fails? then right
        else if left.truth.Unsettled? || right.truth.Unsettled? then Yields(Unsettled, None, right.after)
        else if left.items.None? || right.items.None? then Fails(OperandNotASet)
        else if e.op == "set_union" then Yields(True, Some(Add(left.items.value, right.items.value)), right.after)
        else Yields(if Contained(left.items.value, right.items.value) then True else False, None, right.after)
    else Fails(UnsupportedOperator)
  }

  /** The mutable reading state of the source and the recursive evaluation that fills it. */
  class ReadingState {
    var dependencies: seq<Id>
    var missing: seq<MissingRead>
    var ambiguous: seq<AmbiguousRead>

    constructor ()
      ensures Current() == Reads([], [], [])
    {
      dependencies, missing, ambiguous := [], [], [];
    }

    function Current(): Reads
      reads this
    {
      Reads(dependencies, missing, ambiguous)
    }

    /** Afterwards the record is listed; what was listed keeps its place, and nothing is listed twice. */
    method Dependency(id: Id)
      modifies `dependencies
      ensures old(dependencies) <= dependencies && |dependencies| <= |old(dependencies)| + 1
      ensures forall x :: x in dependencies <==> x in old(dependencies) || x == id
      ensures DistinctNames(old(dependencies)) ==> DistinctNames(dependencies)
      ensures id in old(dependencies) ==> dependencies == old(dependencies)
    {
      if id !in dependencies {
        dependencies := dependencies + [id];
      }
    }

    method DependencyAll(ids: seq<Id>)
      modifies `dependencies
      ensures dependencies == DependAll(old(dependencies), ids)
    {
      for i := 0 to |ids|
        invariant DependAll(dependencies, ids[i..]) == DependAll(old(dependencies), ids)
      {
        assert ids[i..][0] == ids[i] && ids[i..][1..] == ids[i + 1..];
        ghost var before := dependencies;
        Dependency(ids[i]);
        RecordedOnce(before, ids[i], dependencies);
      }
    }

    method ReadProperty(w: World, bindings: map<string, Id>, e: Expr)
      returns (failure: Option<Failure>, truth: Truth, items: Option<seq<string>>)
      requires e.Node?
      modifies this
      ensures match Read(w, bindings, e, old(Current()))
              case Fails(f) => failure == Some(f)
              case Yields(t, i, r) => failure == None && truth == t && items == i && Current() == r
    {
      failure, truth, items := None, Unsettled, None;
      if e.participant !in bindings || e.property == "" {
        return Some(InvalidProperty), Unsettled, None;
      }
      if !e.version.Version? || e.version.text == "" || e.property !in w.properties
         || w.properties[e.property] != e.version.text {
        return Some(VersionOutsideSnapshot), Unsettled, None;
      }
      var version := e.version.text;
      if (e.property, version) !in w.vocabulary.properties {
        return Some(UnresolvedVocabulary), Unsettled, None;
      }
      var description := bindings[e.participant];
      var found := SortNames(Matches(w, description, e.property, version));
      if found == [] {
        missing := missing + [MissingRead(e.participant, description, e.property, version)];
        return;
      }
      if |found| > 1 {
        ambiguous := ambiguous + [AmbiguousRead(e.participant, description, e.property, version, found)];
        DependencyAll(found);
        return;
      }
      assert found[0] in found;
      var record := w.records[found[0]];
      if w.vocabulary.properties[(e.property, version)] != FiniteSetKind || !record.value.FiniteSet? {
        return Some(IncompatibleValue), Unsettled, None;
      }
      if !record.epistemic.Exact? {
        return Some(NotExact), Unsettled, None;
      }
      Dependency(found[0]);
      return None, True, Some(record.value.items);
    }

    method EvaluateExpr(w: World, bindings: map<string, Id>, e: Expr)
      returns (failure: Option<Failure>, truth: Truth, items: Option<seq<string>>)
      modifies this
      ensures match Evaluate(w, bindings, e, old(Current()))
              case Fails(f) => failure == Some(f)
              case Yields(t, i, r) => failure == None && truth == t && items == i && Current() == r
      decreases e
    {
      if e.NotAnObject? || e.op == "" {
        return Some(InvalidExpression), Unsettled, None;
      }
      if e.op == "property" {
        failure, truth, items := ReadProperty(w, bindings, e);
        return;
      }
      if !IsSetOperator(e.op) {
        return Some(UnsupportedOperator), Unsettled, None;
      }
      var leftTruth, left, rightTruth, right;
      failure, leftTruth, left := EvaluateExpr(w, bindings, e.left);
      if failure.Some? {
        return failure, Unsettled, None;
      }
      failure, rightTruth, right := EvaluateExpr(w, bindings, e.right);
      if failure.Some? {
        return failure, Unsettled, None;
      }
      if leftTruth.Unsettled? || rightTruth.Unsettled? {
        return None, Unsettled, None;
      }
      if left.None? || right.None? {
        return Some(OperandNotASet), Unsettled, None;
      }
      if e.op == "set_union" {
        var items, _ := Union(left.value, right.value);
        return None, True, Some(items);
      }
      return None, if Contained(left.value, right.value) then True else False, None;
    }
  }

  /** `at` lists, in ascending order, where `right` first names something that `left` does not. */
  ghost predicate NewAt(left: seq<string>, right: seq<string>, at: seq<nat>)
  {
    && (forall q :: 0 <= q < |at| ==> at[q] < |right| && right[at[q]] !in left && right[at[q]] !in right[..at[q]])
    && (forall p, q :: 0 <= p < q < |at| ==> at[p] < at[q])
    && forall k :: 0 <= k < |right| && right[k] !in left && right[k] !in right[..k] ==> k in at
  }

  /** `items` lists `left` and then `right` at these places. */
  ghost predicate Appends(left: seq<string>, right: seq<string>, items: seq<string>, at: seq<nat>)
  {
    && left <= items && |items| == |left| + |at|
    && forall q :: 0 <= q < |at| ==> at[q] < |right| && items[|left| + q] == right[at[q]]
  }

  /** `items` is `left` followed by what is new in `right`, in the order in which it first occurs there. */
  ghost predicate IsUnion(left: seq<string>, right: seq<string>, items: seq<string>, at: seq<nat>)
  {
    && NewAt(left, right, at) && Appends(left, right, items, at)
    && forall x :: x in items <==> x in left || x in right
  }

  method Union(left: seq<string>, right: seq<string>) returns (items: seq<string>, ghost at: seq<nat>)
    ensures items == Add(left, right) && IsUnion(left, right, items, at)
  {
    items, at := left, [];
    for i := 0 to |right|
      invariant Add(items, right[i..]) == Add(left, right)
      invariant IsUnion(left, right[..i], items, at)
    {
      assert right[i..][0] == right[i] && right[i..][1..] == right[i + 1..];
      UnionMore(left, right, i, items, at);
      if right[i] !in items {
        items, at := items + [right[i]], at + [i];
      }
    }
    assert right[..|right|] == right;
  }

  lemma UnionMore(left: seq<string>, right: seq<string>, i: nat, items: seq<string>, at: seq<nat>)
    requires i < |right| && IsUnion(left, right[..i], items, at)
    ensures IsUnion(left, right[..i + 1], if right[i] in items then items else items + [right[i]],
                    if right[i] in items then at else at + [i])
  {
    assert right[i] in items <==> right[i] in left || right[i] in right[..i];
    NewAtMore(left, right, i, at);
    AppendsMore(left, right, i, items, at);
    MembersMore(left, right, i, items);
  }

  lemma MembersMore(left: seq<string>, right: seq<string>, i: nat, items: seq<string>)
    requires i < |right| && forall x :: x in items <==> x in left || x in right[..i]
    ensures forall x :: x in (if right[i] in items then items else items + [right[i]]) <==> x in left || x in right[..i + 1]
  {
    assert right[..i + 1] == right[..i] + [right[i]];
  }

  lemma AppendsMore(left: seq<string>, right: seq<string>, i: nat, items: seq<string>, at: seq<nat>)
    requires i < |right| && Appends(left, right[..i], items, at)
    ensures Appends(left, right[..i + 1], items, at)
    ensures Appends(left, right[..i + 1], items + [right[i]], at + [i])
  {
    var more, places := items + [right[i]], at + [i];
    forall q | 0 <= q < |places| ensures places[q] <= i && more[|left| + q] == right[places[q]] {
      if q < |at| {
        assert places[q] == at[q] && more[|left| + q] == items[|left| + q];
      }
    }
  }

  lemma NewAtMore(left: seq<string>, right: seq<string>, i: nat, at: seq<nat>)
    requires i < |right| && NewAt(left, right[..i], at)
    ensures NewAt(left, right[..i + 1], if right[i] in left || right[i] in right[..i] then at else at + [i])
  {
    var more := if right[i] in left || right[i] in right[..i] then at else at + [i];
    var next := right[..i + 1];
    assert forall k :: 0 <= k <= i ==> next[..k] == right[..i][..k];
    forall k | 0 <= k < |next| && next[k] !in left && next[k] !in next[..k] ensures k in more {
      if k < i {
        assert k in at;
      } else {
        assert more[|at|] == i;
      }
    }
  }
}

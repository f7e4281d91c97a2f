/** What admission demands of a batch and what it publishes, told from the items themselves. */
module Admissions {
  import opened Model
  import opened Ordering
  import opened Rules
  import opened RuleTheorems
  import opened StoreSteps

  // ---------------------------------------------------------------- rules

  /** The property has this version and no other. */
  ghost predicate OnlyVersion(vocabulary: Vocabulary, property: string, version: string)
  {
    (property, version) in vocabulary.properties
    && forall other :: (property, other) in vocabulary.properties ==> other == version
  }

  /** The same condition, but for the versions that property nodes leave out: each gets the only one there is. */
  ghost predicate Filled(vocabulary: Vocabulary, before: Expr, after: Expr)
    decreases before
  {
    if before.NotAnObject? then after == before
    else if before.op == "property" && before.version == NoVersion then
      before.property != "" && exists version :: OnlyVersion(vocabulary, before.property, version) && after == before.(version := Version(version))
    else if before.op == "set_union" || before.op == "set_subset" then
      after.Node? && Filled(vocabulary, before.left, after.left) && Filled(vocabulary, before.right, after.right)
      && after == before.(left := after.left, right := after.right)
    else after == before
  }

  /** The node denotes a set of names. */
  ghost predicate SetValued(vocabulary: Vocabulary, e: Expr)
  {
    && e.Node?
    && (e.op == "set_union"
        || (e.op == "property" && e.version.Version? && (e.property, e.version.text) in vocabulary.properties
            && vocabulary.properties[(e.property, e.version.text)] == FiniteSetKind))
  }

  /** Every property node speaks of a participant and a known version; operands of known operators denote sets. */
  ghost predicate WellFormed(participants: seq<string>, vocabulary: Vocabulary, e: Expr)
  {
    && e.Node? && e.op != ""
    && (e.op == "property" ==>
          && e.participant != "" && e.participant in participants && e.property != ""
          && e.version.Version? && (e.property, e.version.text) in vocabulary.properties)
    && (e.op == "set_union" || e.op == "set_subset" ==>
          && WellFormed(participants, vocabulary, e.left) && WellFormed(participants, vocabulary, e.right)
          && (AllKnown(e) ==> SetValued(vocabulary, e.left) && SetValued(vocabulary, e.right)))
  }

  lemma OnlyVersionExactly(vocabulary: Vocabulary, property: string)
    ensures |Versions(vocabulary, property)| == 1 ==> OnlyVersion(vocabulary, property, Only(Versions(vocabulary, property)))
    ensures forall version :: OnlyVersion(vocabulary, property, version) ==>
              Versions(vocabulary, property) == {version} && |Versions(vocabulary, property)| == 1 && Only(Versions(vocabulary, property)) == version
  {
    var versions := Versions(vocabulary, property);
    forall version | (property, version) in vocabulary.properties ensures version in versions {
      assert (property, version).0 == property && (property, version).1 == version;
    }
    forall version | OnlyVersion(vocabulary, property, version)
      ensures versions == {version} && |versions| == 1 && Only(versions) == version
    {
      assert forall other :: other in versions ==> (property, other) in vocabulary.properties;
      assert versions == {version};
    }
    if |versions| == 1 {
      var version := Only(versions);
      assert version in versions && (property, version) in vocabulary.properties;
      forall other | (property, other) in vocabulary.properties ensures other == version {
        assert other in versions && versions == {version};
      }
    }
  }

  lemma {:induction false} NormalIsFilled(vocabulary: Vocabulary, e: Expr)
    requires Normalize(vocabulary, e).Ok?
    ensures Filled(vocabulary, e, Normalize(vocabulary, e).value)
  {
    if e.Node? && e.op == "property" && e.version.NoVersion? {
      OnlyVersionExactly(vocabulary, e.property);
    } else if e.Node? && IsSetOperator(e.op) {
      NormalIsFilled(vocabulary, e.left);
      NormalIsFilled(vocabulary, e.right);
    }
  }

  lemma {:induction false} FilledIsNormal(vocabulary: Vocabulary, e: Expr, after: Expr)
    requires Filled(vocabulary, e, after)
    ensures Normalize(vocabulary, e) == Ok(after)
  {
    if e.Node? && e.op == "property" && e.version.NoVersion? {
      OnlyVersionExactly(vocabulary, e.property);
    } else if e.Node? && IsSetOperator(e.op) {
      FilledIsNormal(vocabulary, e.left, after.left);
      FilledIsNormal(vocabulary, e.right, after.right);
    }
  }

  lemma {:induction false} CheckExactly(participants: seq<string>, vocabulary: Vocabulary, e: Expr)
    ensures var r := CheckExpr(participants, vocabulary, true, e);
            && (r.Ok? <==> WellFormed(participants, vocabulary, e))
            && (r.Ok? ==> (r.value.Some? <==> AllKnown(e)))
            && (r.Ok? ==> (r.value == Some(OfKind(FiniteSetKind)) <==> AllKnown(e) && SetValued(vocabulary, e)))
            && (r.Ok? ==> (r.value == Some(Truthful) <==> AllKnown(e) && e.op == "set_subset"))
  {
    if e.Node? && IsSetOperator(e.op) {
      CheckExactly(participants, vocabulary, e.left);
      CheckExactly(participants, vocabulary, e.right);
    }
  }

  /** The head is the rule's own participants, named and distinct but for the last, under a predicate of their number. */
  ghost predicate HeadDeclared(vocabulary: Vocabulary, body: RuleBody)
  {
    && body.head.participants == body.participants && DistinctButLast(body.participants) && "" !in body.participants
    && (body.head.predicateId, body.head.version) in vocabulary.predicates
    && |body.participants| == vocabulary.predicates[(body.head.predicateId, body.head.version)]
  }

  /** The condition as it is kept: filled, well-formed and, unless some operator is unknown, a subset test. */
  ghost predicate KeptAs(vocabulary: Vocabulary, body: RuleBody, condition: Expr)
  {
    && Filled(vocabulary, body.condition, condition) && WellFormed(body.participants, vocabulary, condition)
    && (AllKnown(condition) ==> condition.op == "set_subset")
  }

  /** The rule is the body with the kept condition, marked as supported as that one is. */
  ghost predicate RuleTold(vocabulary: Vocabulary, version: string, body: RuleBody, rule: Rule)
  {
    && rule.version == version && rule.body.participants == body.participants && rule.body.head == body.head
    && KeptAs(vocabulary, body, rule.body.condition)
    && rule.supported == Supported(rule.body.condition)
    && (NoStrays(rule.body.condition) ==> (rule.supported <==> AllKnown(rule.body.condition)))
  }

  lemma HeadFitsExactly(vocabulary: Vocabulary, body: RuleBody)
    ensures HeadFits(vocabulary, body) <==> HeadDeclared(vocabulary, body)
  {
    SeemsDistinctExactly(body.participants);
  }

  lemma AdmittedIsTold(vocabulary: Vocabulary, version: string, body: RuleBody)
    requires AdmitRule(vocabulary, version, body).Ok?
    ensures HeadDeclared(vocabulary, body) && RuleTold(vocabulary, version, body, AdmitRule(vocabulary, version, body).value)
  {
    var condition := Normalize(vocabulary, body.condition).value;
    HeadFitsExactly(vocabulary, body);
    NormalIsFilled(vocabulary, body.condition);
    CheckExactly(body.participants, vocabulary, condition);
    if NoStrays(condition) {
      SupportedExactly(condition);
    }
  }

  lemma KeptIsAdmitted(vocabulary: Vocabulary, version: string, body: RuleBody, condition: Expr)
    requires HeadDeclared(vocabulary, body) && KeptAs(vocabulary, body, condition)
    ensures AdmitRule(vocabulary, version, body).Ok?
  {
    HeadFitsExactly(vocabulary, body);
    FilledIsNormal(vocabulary, body.condition, condition);
    CheckExactly(body.participants, vocabulary, condition);
  }

  lemma RuleAdmittedExactly(vocabulary: Vocabulary, version: string, body: RuleBody)
    ensures var r := AdmitRule(vocabulary, version, body);
            && (r.Ok? <==> HeadDeclared(vocabulary, body) && exists condition :: KeptAs(vocabulary, body, condition))
            && (r.Ok? ==> RuleTold(vocabulary, version, body, r.value))
  {
    if AdmitRule(vocabulary, version, body).Ok? {
      AdmittedIsTold(vocabulary, version, body);
    }
    if HeadDeclared(vocabulary, body) && exists condition :: KeptAs(vocabulary, body, condition) {
      var condition :| KeptAs(vocabulary, body, condition);
      KeptIsAdmitted(vocabulary, version, body, condition);
    }
  }

  // ---------------------------------------------------------------- single items

  /** No row of the file, set aside or not, holds the place of a property or relation of this identity. */
  ghost predicate KnowledgeVacant(st: StoreState, id: Id)
  {
    id !in st.records && (PropertyRow, id) !in st.isolated && (RelationRow, id) !in st.isolated
  }

  /** The record names sources, all of them admitted, and what it says is in the vocabulary and about known descriptions. */
  ghost predicate RecordDeclared(st: StoreState, r: Record)
  {
    && r.sources != [] && (forall s :: s in r.sources ==> s in st.sources)
    && (r.Property? ==>
          && r.description in st.descriptions && r.place != ""
          && (r.property, r.version) in st.vocabulary.properties
          && st.vocabulary.properties[(r.property, r.version)] == r.value.Kind())
    && (r.Relation? ==>
          && (r.predicateId, r.version) in st.vocabulary.predicates
          && st.vocabulary.predicates[(r.predicateId, r.version)] == |r.participants|
          && DistinctButLast(r.participants) && (forall p :: p in r.participants ==> p in st.descriptions)
          && r.scope.One? && r.scope.name != "")
  }

  /** What admission demands of one item. */
  ghost predicate ItemDeclared(st: StoreState, item: Item)
  {
    && (item.DescriptionItem? ==> item.description !in st.descriptions)
    && (item.SourceItem? ==> item.source !in st.sources)
    && (item.RecordItem? ==> KnowledgeVacant(st, item.record.id) && RecordDeclared(st, item.record))
    && (item.RuleItem? ==>
          && item.rule !in st.rules && (RuleRow, item.rule) !in st.isolated && item.version != ""
          && HeadDeclared(st.vocabulary, item.body) && exists condition :: KeptAs(st.vocabulary, item.body, condition))
    && (item.ContextItem? ==>
          && item.context !in st.contexts && (ContextRow, item.context) !in st.isolated
          && "" !in item.scopes && forall r :: r in item.enabled ==> r in st.rules)
  }

  /** What one item adds; a record is kept as it is, proof reference included. */
  ghost predicate ItemPublished(st: StoreState, item: Item, next: StoreState)
  {
    match item
    case DescriptionItem(id) => next == st.(descriptions := st.descriptions + {id})
    case SourceItem(id) => next == st.(sources := st.sources + {id})
    case RecordItem(record) => next == st.(records := st.records[record.id := record])
    case RuleItem(id, version, body) =>
      id in next.rules && RuleTold(st.vocabulary, version, body, next.rules[id]) && next == st.(rules := st.rules[id := next.rules[id]])
    case ContextItem(id, scopes, enabled) => next == st.(contexts := st.contexts[id := Context(scopes, enabled)])
  }

  lemma RecordFitsExactly(st: StoreState, r: Record)
    ensures RecordFits(st, r) <==> RecordDeclared(st, r)
  {
    if r.Relation? {
      SeemsDistinctExactly(r.participants);
    }
  }

  lemma ItemExactly(st: StoreState, item: Item)
    ensures var r := AdmitItem(st, item);
            (r.Ok? <==> ItemDeclared(st, item)) && (r.Ok? ==> ItemPublished(st, item, r.value))
  {
    match item {
      case RecordItem(record) => RecordFitsExactly(st, record);
      case RuleItem(_, version, body) => RuleAdmittedExactly(st.vocabulary, version, body);
      case _ =>
    }
  }

  // ---------------------------------------------------------------- batches

  ghost predicate Admitted(st: StoreState, item: Item, next: StoreState)
  {
    ItemDeclared(st, item) && ItemPublished(st, item, next)
  }

  /** The items are admitted one after the other, each against what came before it. */
  ghost predicate InTurn(states: seq<StoreState>, items: seq<Item>)
  {
    |states| == |items| + 1 && forall i :: 0 <= i < |items| ==> Admitted(states[i], items[i], states[i + 1])
  }

  lemma InTurnMore(st: StoreState, item: Item, later: seq<StoreState>, items: seq<Item>)
    requires InTurn(later, items) && Admitted(st, item, later[0])
    ensures InTurn([st] + later, [item] + items)
  {
    var states, all := [st] + later, [item] + items;
    forall i | 0 <= i < |all| ensures Admitted(states[i], all[i], states[i + 1]) {
      if i > 0 {
        assert all[i] == items[i - 1] && states[i] == later[i - 1] && states[i + 1] == later[i];
      }
    }
  }

  lemma {:induction false} AdmittedInTurn(st: StoreState, items: seq<Item>) returns (states: seq<StoreState>)
    requires AdmitAll(st, items).Ok?
    ensures InTurn(states, items) && states[0] == st && states[|items|] == AdmitAll(st, items).value
    decreases |items|
  {
    if items == [] {
      states := [st];
    } else {
      ItemExactly(st, items[0]);
      var next := AdmitItem(st, items[0]).value;
      var later := AdmittedInTurn(next, items[1..]);
      InTurnMore(st, items[0], later, items[1..]);
      assert [items[0]] + items[1..] == items;
      states := [st] + later;
    }
  }

  lemma {:induction false} RefusedInTurn(st: StoreState, items: seq<Item>) returns (states: seq<StoreState>, at: nat)
    requires AdmitAll(st, items).Err?
    ensures at < |items| && InTurn(states, items[..at]) && states[0] == st && !ItemDeclared(states[at], items[at])
    decreases |items|
  {
    ItemExactly(st, items[0]);
    if AdmitItem(st, items[0]).Err? {
      states, at := [st], 0;
    } else {
      var next := AdmitItem(st, items[0]).value;
      var later, n := RefusedInTurn(next, items[1..]);
      InTurnMore(st, items[0], later, items[1..][..n]);
      assert [items[0]] + items[1..][..n] == items[..n + 1];
      states, at := [st] + later, n + 1;
    }
  }

  /** A batch is published exactly when every item finds what it demands in the store and the items before it, and as
      the items in turn publish it; otherwise the items before the first that does not are dropped with it. */
  lemma BatchExactly(st: StoreState, items: seq<Item>) returns (states: seq<StoreState>, at: nat)
    ensures at <= |items| && InTurn(states, items[..at]) && states[0] == st
    ensures AdmitAll(st, items).Ok? <==> at == |items|
    ensures if at == |items| then AdmitAll(st, items) == Ok(states[at]) else !ItemDeclared(states[at], items[at])
  {
    if AdmitAll(st, items).Ok? {
      states := AdmittedInTurn(st, items);
      at := |items|;
      assert items[..at] == items;
    } else {
      states, at := RefusedInTurn(st, items);
    }
  }
}

/** The values of the knowledge store (src/atlas/model.py, values.py, vocabulary.py, problem.py). */
module Model {
  import opened Ordering

  type Id = string

  // ---------------------------------------------------------------- values and records

  datatype ValueKind = SymbolKind | IntegerKind | FiniteSetKind | SequenceKind

  datatype Value =
    | Symbol(text: string)
    | Integer(number: int)
    | FiniteSet(items: seq<string>)
    | Sequence(entries: seq<string>)
  {
    function Kind(): ValueKind
    {
      match this
      case Symbol(_) => SymbolKind
      case Integer(_) => IntegerKind
      case FiniteSet(_) => FiniteSetKind
      case Sequence(_) => SequenceKind
    }
  }

  datatype Epistemic = Exact | Bound | Estimate | Unknown

  datatype Polarity = Positive | Negative

  /** A fact is scoped by one name; a derived relation may carry the several scopes of its context. */
  datatype Scope = One(name: string) | Many(names: seq<string>)
  {
    predicate Meets(visible: seq<string>)
    {
      match this
      case One(name) => name in visible
      case Many(names) => exists name :: name in names && name in visible
    }
  }

  datatype Record =
    | Property(id: Id, description: Id, property: Id, version: string, value: Value, place: string,
               epistemic: Epistemic, sources: seq<Id>)
    | Relation(id: Id, predicateId: Id, version: string, participants: seq<Id>, polarity: Polarity, scope: Scope,
               epistemic: Epistemic, sources: seq<Id>, derivation: Option<Id>)

  /** The proof stored beside a derived relation. */
  datatype Derivation = Derivation(id: Id, rule: Id, ruleVersion: string, bindings: seq<(string, Id)>,
                                   snapshot: Id, context: Id, dependencies: seq<Id>)

  /** One explicit replacement of a record, attached to the snapshot at which it was made. */
  datatype Supersession = Supersession(retired: Id, replacement: Id, snapshot: Id)

  // ---------------------------------------------------------------- rules

  /** A version entry of a property node: no such key, a JSON null, or a text. */
  datatype VersionField = NoVersion | NullVersion | Version(text: string)

  /** A node of a rule's condition as decoded JSON. Any node may carry a stray `when` key. */
  datatype Expr =
    | Node(op: string, participant: string, property: string, version: VersionField,
           left: Expr, right: Expr, stray: Option<Expr>)
    | NotAnObject

  datatype Head = Head(predicateId: Id, version: string, participants: seq<string>, polarity: Polarity)

  datatype RuleBody = RuleBody(participants: seq<string>, head: Head, condition: Expr)

  datatype Rule = Rule(version: string, body: RuleBody, supported: bool)

  datatype Context = Context(scopes: seq<string>, enabled: seq<Id>)

  /** Property kinds and predicate arities by identity and version. */
  datatype Vocabulary = Vocabulary(predicates: map<(string, string), nat>, properties: map<(string, string), ValueKind>)

  /** A snapshot fixes its records and one exact version of every definition. */
  datatype Snapshot = Snapshot(id: Id, parent: Option<Id>, records: seq<Id>,
                               predicates: map<string, string>, properties: map<string, string>,
                               contexts: map<Id, Context>, rules: map<Id, Rule>, descriptions: set<Id>)

  // ---------------------------------------------------------------- groundings

  datatype Truth = True | False | Unsettled

  datatype MissingRead = MissingRead(participant: string, description: Id, property: Id, version: string)

  datatype AmbiguousRead = AmbiguousRead(participant: string, description: Id, property: Id, version: string, records: seq<Id>)

  datatype Conclusion = Conclusion(predicateId: Id, version: string, participants: seq<Id>, polarity: Polarity,
                                   scope: Scope, sources: seq<Id>, rule: Id, ruleVersion: string, dependencies: seq<Id>)

  datatype GroundingResult = GroundingResult(
    rule: Id, ruleVersion: string, bindings: seq<(string, Id)>, truth: Truth, conclusion: Option<Conclusion>,
    dependencies: seq<Id>, missing: seq<MissingRead>, ambiguous: seq<AmbiguousRead>, snapshot: Id, context: Id)

  // ---------------------------------------------------------------- decisions

  datatype DecisionScope = DecisionScope(id: Id, snapshot: Id, context: Id, intention: Id, request: Id,
                                         candidates: seq<Id>, rules: seq<Id>, current: bool)

  datatype DiscoveryEvidence = DiscoveryEvidence(version: string, participants: seq<Id>, found: seq<Id>,
                                                 included: seq<Id>, excluded: seq<Id>)

  datatype Observation = Observation(candidate: Id, traversed: bool, truth: Option<Truth>, result: Option<GroundingResult>,
                                     exclusion: Option<string>, failure: Option<string>, evidence: Option<DiscoveryEvidence>)

  datatype GroundingStatus = CompleteForDeclaredScope | Incomplete | InvalidGrounding

  /** `current` tells the current schema from the legacy one. */
  datatype DecisionGrounding = DecisionGrounding(scope: Id, observations: seq<Observation>, status: GroundingStatus,
                                                 interrupted: bool, pruned: bool, current: bool)

  datatype ObjectiveValue = ObjectiveValue(value: int, record: Id, property: Id, version: string, epistemic: Epistemic)

  datatype Candidate = Candidate(candidate: Id, truth: Truth, result: GroundingResult,
                                 exclusion: Option<string>, objective: Option<ObjectiveValue>)

  datatype Problem = Problem(scope: Id, snapshot: Id, context: Id, request: Id, rule: Id,
                             objectiveVersion: string, candidates: seq<Candidate>)

  datatype SelectionStatus = Resolved | NeedsInformation | NoAdmissibleCandidate

  datatype Selection = Selection(source: Id, status: SelectionStatus, optimum: Option<int>, coOptima: seq<Id>)

  datatype Decision = Decision(id: Id, source: Id, status: SelectionStatus, optimum: Option<int>, coOptima: seq<Id>)

  datatype ArtifactStatus = Current | Stale | Invalid

  // ---------------------------------------------------------------- the store

  /** The kinds of physical rows of knowledge that restore can set aside. */
  datatype RowKind = RuleRow | ContextRow | PropertyRow | RelationRow | DerivationRow | SnapshotRow | SupersessionRow

  datatype StoreState = StoreState(
    vocabulary: Vocabulary, descriptions: set<Id>, sources: set<Id>, rules: map<Id, Rule>, contexts: map<Id, Context>,
    snapshots: map<Id, Snapshot>, records: map<Id, Record>, derivations: map<Id, Derivation>,
    supersessions: map<Id, Supersession>, isolated: set<(RowKind, Id)>,
    scopes: map<Id, DecisionScope>, groundings: map<Id, DecisionGrounding>,
    problems: map<Id, Problem>, decisions: map<Id, Decision>)

  datatype Result<+T> = Ok(value: T) | Err(reason: string)
}

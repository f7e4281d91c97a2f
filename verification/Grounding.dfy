/** Grounding one rule at one snapshot (src/atlas/rules.py, `ground`). */
module Grounding {
  import opened Lineage
  import opened Model
  import opened Ordering
  import opened RestoreClosure
  import opened Rules

  /** What a rule evaluated at `snapshot` in `context` may read, given the effective records there. */
  function WorldAt(st: StoreState, snapshot: Snapshot, context: Context, effective: set<Id>): World
  {
    World(st.vocabulary, snapshot.properties, context.scopes, st.records,
          set x | x in effective && (PropertyRow, x) !in st.isolated)
  }

  /** The bindings in the order of the declared participants. */
  function Ordered(bindings: map<string, Id>, names: seq<string>): seq<(string, Id)>
    requires forall name :: name in names ==> name in bindings
  {
    seq(|names|, i requires 0 <= i < |names| => assert names[i] in names; (names[i], bindings[names[i]]))
  }

  /** The bindings match the declared participants one for one and name descriptions of the snapshot. */
  predicate BindingsFit(bindings: map<string, Id>, names: seq<string>, snapshot: Snapshot)
  {
    && |bindings.Keys| == |names|
    && (forall name :: name in names ==> name in bindings && bindings[name] in snapshot.descriptions)
    && forall name :: name in bindings.Keys ==> name in names
  }

  /** The tests before evaluation: a supported rule and a context fixed by the snapshot, fitting bindings. */
  predicate Groundable(st: StoreState, rule: Id, bindings: map<string, Id>, snapshot: Id, context: Id)
  {
    && snapshot in st.snapshots
    && var snap := st.snapshots[snapshot];
    && rule in snap.rules && snap.rules[rule].supported
    && context in snap.contexts && rule in snap.contexts[context].enabled
    && BindingsFit(bindings, snap.rules[rule].body.participants, snap)
  }

  /** The tests on the rule's head, made only once the condition has turned out TRUE. */
  predicate HeadHolds(body: RuleBody, snapshot: Snapshot)
  {
    && body.head.participants == body.participants
    && body.head.predicateId in snapshot.predicates && snapshot.predicates[body.head.predicateId] == body.head.version
  }

  function ConclusionOf(st: StoreState, rule: Id, bindings: map<string, Id>, snapshot: Snapshot, context: Context,
                        dependencies: seq<Id>): Conclusion
    requires rule in snapshot.rules && BindingsFit(bindings, snapshot.rules[rule].body.participants, snapshot)
  {
    var body := snapshot.rules[rule].body;
    var ordered := Ordered(bindings, body.participants);
    Conclusion(body.head.predicateId, body.head.version, seq(|ordered|, i requires 0 <= i < |ordered| => ordered[i].1),
               body.head.polarity, ScopeOf(context.scopes), SortNames(SourcesOf(st.records, dependencies)),
               rule, snapshot.rules[rule].version, dependencies)
  }

  /** `ground`, given the effective records of the snapshot. */
  function Ground(st: StoreState, rule: Id, bindings: map<string, Id>, snapshot: Id, context: Id,
                  effective: set<Id>): Result<GroundingResult>
  {
    if !Groundable(st, rule, bindings, snapshot, context) then Err("grounding environment")
    else
      var snap := st.snapshots[snapshot];
      var body := snap.rules[rule].body;
      match Evaluate(WorldAt(st, snap, snap.contexts[context], effective), bindings, body.condition, Reads([], [], []))
      case Fails(_) => Err("grounding evaluation")
      case Yields(truth, _, after) =>
        var ordered := Ordered(bindings, body.participants);
        if truth.True? && !HeadHolds(body, snap) then Err("rule head")
        else
          Ok(GroundingResult(
               rule, snap.rules[rule].version, ordered, truth,
               if truth.True? then Some(ConclusionOf(st, rule, bindings, snap, snap.contexts[context], after.dependencies)) else None,
               after.dependencies, after.missing, after.ambiguous, snapshot, context))
  }

  /** The evaluation as the source runs it, with its mutable reading state. */
  method GroundRule(st: StoreState, rule: Id, bindings: map<string, Id>, snapshot: Id, context: Id)
    returns (r: Result<GroundingResult>)
    requires ParentsPresent(st.snapshots)
    ensures r == if snapshot in st.snapshots then Ground(st, rule, bindings, snapshot, context, Effective(st, snapshot))
                 else Err("grounding environment")
  {
    if !Groundable(st, rule, bindings, snapshot, context) {
      return Err("grounding environment");
    }
    var snap := st.snapshots[snapshot];
    var body := snap.rules[rule].body;
    var ids := EffectiveRecordIds(st, snapshot);
    var effective := set x | x in ids;
    EffectiveListed(st, snapshot);
    var state := new ReadingState();
    var failure, truth, items := state.EvaluateExpr(WorldAt(st, snap, snap.contexts[context], effective), bindings, body.condition);
    if failure.Some? {
      return Err("grounding evaluation");
    }
    var conclusion := None;
    if truth.True? {
      if !HeadHolds(body, snap) {
        return Err("rule head");
      }
      conclusion := Some(ConclusionOf(st, rule, bindings, snap, snap.contexts[context], state.dependencies));
    }
    return Ok(GroundingResult(rule, snap.rules[rule].version, Ordered(bindings, body.participants), truth, conclusion,
                              state.dependencies, state.missing, state.ambiguous, snapshot, context));
  }

  /** Listing the effective records in snapshot order loses none of them. */
  lemma EffectiveListed(st: StoreState, snapshot: Id)
    requires snapshot in st.snapshots
    ensures (set x | x in Among(st.snapshots[snapshot].records, Effective(st, snapshot))) == Effective(st, snapshot)
  {
    assert Effective(st, snapshot) <= Base(st, snapshot);
  }
}

# A verified model of Atlas

Atlas keeps an append-only store of knowledge: facts, derived relations with their proofs, snapshots that form
a tree, and explicit replacements of one record by another that are visible only on the branch where they were
made. Rules are grounded over the effective records of a snapshot, decisions are selected from grounded
problems, and a stored decision is later classified as current, stale or invalid. Around the store live several
self-contained algorithms: a candidate planner, a memoised plan search, a bounded scheduling oracle, a cycle
check of a knowledge corpus, a bounded line splitter, a context printer and parser, and a converter of column
offsets.

This project models those parts in Dafny and proves what they promise. `dafny verify dfyconfig.toml` checks all
of it.

## How it is organised

| modules | what they cover |
|---|---|
| `Ordering`, `Enumeration`, `Decimals`, `Graph`, `Traversal` | sorted names, `itertools.product`, decimal notation, reachability and cycles of finite graphs, depth-first listings |
| `Model`, `Lineage`, `LineageTheorems` | the values of the store; the snapshot tree, visible replacements and the effective view |
| `Supersessions`, `SupersessionRestore` | admission of one replacement, restoration of all of them from arbitrary rows |
| `Tarjan`, `RestoreClosure` | strongly connected components, and the mutual fixed point over proofs and snapshots on restore |
| `Rules`, `RuleTheorems`, `Grounding`, `GroundingTheorems` | the rule language: static check, support mark, three-valued evaluation, grounding and what a grounding says |
| `Scopes`, `ScopeTheorems`, `Problems`, `Selections`, `Statuses`, `Standings`, `RunChecks`, `Explanations`, `ExplanationTheorems` | decision scopes and runs, grounded problems, selection, standing and explanation of decisions; what each of their checks accepts, told from stored values |
| `StoreSteps`, `StepContents`, `Publications`, `Admissions`, `StoreFrames`, `StoreInvariants`, `StatusFrames`, `StoreTheorems`, `StoreGuarantees`, `Store` | the live steps as functions of the state, what each demands and publishes, what they keep over whole runs, and the store object |
| `Reopening`, `LoadedStates`, `LoadedRows`, `LoadedProofs`, `LoadedDecisions`, `ReopeningTheorems`, `IsolationFrames`, `ReopenedDecisions`, `ReopeningWitnesses`, `RepeatedConclusion`, `DisorderedRuns`, `EdgeWitnesses`, `RetiredRelation` | opening a file: row tests, passes over definitions and both closures composed; which rows are in force, and what a reachable state comes back as; runs that lose or change something |
| `Planner`, `PlannerTheorems` | plan discovery and its optimality |
| `Explosion`, `ExplosionTheorems`, `ExplosionPlans`, `GeneratedCatalog` | naive and memoised search and exactly which plans they list, canonical plans, pruning, generated catalogues |
| `Scheduling`, `SchedulingTheorems` | the bounded oracle and why its bound is large enough |
| `DerivationGraph` | the three-colour cycle check |
| `Jsonl`, `ContextSupplement`, `Offsets` | line splitting, the context supplement, UTF-8 and UTF-16 offsets |

Where the source updates objects or dictionaries in place, the model has a class or a method with loops that is
proved against a specification function, and the theorems are about that function. The store object
(`Store.Store`) holds the same maps and sets as the source; its constructor opens any rows whatsoever, every
method states the whole new state, and `Valid()` says that the state satisfies every invariant, now and after any
further steps.

A specification function is in turn pinned by a theorem that does not mention it. These theorems are named `...Exactly`
or `...Told`: they say when an operation succeeds and what it yields in terms of the stored values alone, such as "some
effective relation says that the candidate realizes the intention, in a scope that the context sees"
(`ScopeTheorems.ObserveExactly`) or "a trail of dependencies leads from a relation that admitted a candidate to a record
replaced since" (`Statuses.StaleExactly`).

## What the code needs

* Planning: producer names are unique and costs are not negative. Termination needs nothing.
* Scheduling: durations and capacities are not negative; without a deadline scratch sizes are not negative either.
  Acyclic precedence is more than needed: tasks that take no time may precede themselves
  (`SchedulingTheorems.OrderableExactly`).
* The memoised search: producers of one resource agree in what they depend on, and different needed resources
  are built upon different things. Every generated catalogue is like that (`GeneratedCatalog.SearchesAgree`).
* Staleness theorems: the run follows the current schema, as every run the live code makes does.
* Explanations: the dependencies of the explained groundings are present, which holds in every reachable state
  in which no relation borrows a proof (`StoreTheorems.ReachableIsExplainable`).

## Where the code does less than it seems to

1. `_rule_supported` follows a stray `when` key of a nested operand instead of the operand, so a rule can be
   marked supported although it can never be evaluated. The mark can be trusted exactly when only known operators
   occur (`RuleTheorems.SupportMarkExactly`, `RuleTheorems.StrayKeyMisleadsSupport`).
2. Without a deadline `exact_schedule` tests capacity only below the horizon. It reports a schedule that does not
   exist exactly when the tasks can be ordered, some task is too big to run at all, and no such task has a
   successor (`SchedulingTheorems.OpenExactCondition`, `SchedulingTheorems.OversizedTaskIsReportedFeasible`).
3. `_validate_supersessions` drops more than the cycles: also the tail from the first name, in sorted order, that
   leads into a cycle. The dropped set is stated exactly (`SupersessionRestore.ValidateSupersessions`); a file whose
   uniquely claimed edge lies on no cycle and is dropped is given (`EdgeWitnesses.TailIsDropped`).
4. An edge also hides its replacement on branches where the edge is not visible. The view of such a snapshot stays
   the same exactly when the replacement was not effective there or is the target of a visible edge
   (`LineageTheorems.EdgeOffBranchExactly`); a run after which an edge at one branch hides its replacement on another,
   where the replaced record stays effective, is given (`EdgeWitnesses.HiddenOnOtherBranch`,
   `EdgeWitnesses.HiddenIsReachable`).
5. Building a problem looks observations up by candidate, while the validator wants them in manifest order: a
   problem is valid exactly when it is built and the run is in that order (`Problems.ValidExactlyAsBuilt`). A file
   whose run is in another order is opened with it, the problem built from the run is admitted, and no problem over
   it is ever valid (`DisorderedRuns.DisorderedIsRestored`, `DisorderedRuns.DisorderedIsNeverValid`).
6. `admit` keeps the proof reference of an admitted relation without looking at it, `admit_derived` does not look
   at repeated participants, and `_unique_values` overlooks a repetition by the last value, so that a rule with the
   participants x, x is admitted although it can never be grounded. Reopening keeps the knowledge of a store exactly
   when no relation names a proof that is not filed under its own identity, no relation repeats a participant before
   its last, and no rule repeats one at all (`ReopeningTheorems.ReopenedExactly`; the condition on lists is
   `RuleTheorems.SeemsDistinctExactly`). Each of the three conditions fails on some run from the empty store
   (`StoreTheorems.BorrowingIsReachable`, `RepeatedConclusion.RepeatedConclusionIsReachable`,
   `ReopeningWitnesses.RepeatedRuleIsReachable`), and what goes down with a refused row is stated
   (`StoreTheorems.BorrowerTakesOwnerDown`, `ReopeningWitnesses.RefusedRelationTakesDown`,
   `ReopeningWitnesses.RepeatedRuleTakesDown`).
7. The line splitter documents that an oversized line is yielded empty. A final line without newline is the
   exception: the code yields its truncated prefix, and the model follows the code (`Jsonl.IterBoundedJsonl`).
8. Replacements are restored before proofs are looked at, so a published edge may name a record or a snapshot that
   is dropped afterwards; the opened store is sound exactly when no edge does and the rest of the file is in order
   (`LoadedStates.LoadedSoundExactly`, `ReopeningWitnesses.BorrowedReplacementDangles`,
   `ReopeningWitnesses.DanglingIsReachable`).
9. Two tests of the code can never fire: the cycle test of `admit_derived`
   (`StoreInvariants.CycleTestNeverFires`) and the final comparison of `evaluate` (`Scopes.EvaluationAgrees`).

## Model

| member | source | states |
|---|---|---|
| Lineage.SnapshotDescendsFrom | src/atlas/store.py:764-770 | the walk along parents decides reachability in the parent graph, also when that graph is cyclic |
| Lineage.VisibleSupersessions | src/atlas/store.py:772-777 | exactly the replacements made at the snapshot or one of its ancestors are visible |
| Lineage.Settle | src/atlas/store.py:798-809 | in whatever order derivations are met, the loop ends at the greatest part of the base that contains every dependency of each derived member |
| Lineage.EffectiveRecordIds | src/atlas/store.py:779-812 | the view lists, in snapshot order, the greatest set of records of the snapshot that are neither replaced at or above it nor a replacement only where it cannot see, each derived one with all its dependencies |
| Lineage.EffectiveExactly | src/atlas/store.py:779-812 | the effective records are that greatest set |
| LineageTheorems.EffectiveUnfolds | src/atlas/store.py:779-812 | a record is effective if and only if it passes the replacement tests and, if derived, all its dependencies are effective |
| LineageTheorems.EffectiveClosed | src/atlas/store.py:798-809 | the whole dependency closure of an effective record is effective |
| LineageTheorems.ReplacedEndsEffective | src/atlas/store.py:787-796 | following visible replacements ends at a record of the snapshot that is replaced no further, effective unless derived |
| LineageTheorems.EdgeOffBranchExactly | src/atlas/store.py:791-796 | a new edge leaves the view of a snapshot off its branch unchanged if and only if the replacement was not effective there or is a visible target |
| EdgeWitnesses.HiddenOnOtherBranch | src/atlas/store.py:791-796 | an edge made at the left hides its replacement at the right while the replaced record stays effective there |
| EdgeWitnesses.HiddenIsReachable | src/atlas/store.py:747-762 | a run from the empty store comes to such an edge |
| LineageTheorems.EdgeElsewhere | src/atlas/store.py:747-762 | a snapshot off the branch that does not hold the replacement keeps its view |
| LineageTheorems.RetiredStaysRetired | src/atlas/store.py:787-795 | below its edge a retired record and everything derived from it stay ineffective |
| Supersessions.WalkRepeats | src/atlas/store.py:613-618 | the walk reports a repetition exactly when a cycle is reachable, and its last node lies on that cycle |
| Supersessions.HasNoCycle | src/atlas/store.py:610-618 | the loop over all starts accepts exactly the acyclic replacement graphs |
| Supersessions.AdmissibleExactly | src/atlas/store.py:595-618 | over an acyclic relation the graph test refuses exactly a replacement that already leads to the retired record |
| SupersessionRestore.ValidateSupersessions | src/atlas/store.py:553-583 | restore publishes the uniquely claimed edges except those on the way from the first name leading to a cycle, and isolates exactly the rest |
| SupersessionRestore.PublishedSpec | src/atlas/store.py:553-583 | the published relation is acyclic, drops every edge on a cycle and keeps every unique edge from which no cycle is reachable |
| EdgeWitnesses.TailIsDropped | src/atlas/store.py:573-583 | a concrete file: the edge of a record claimed once and on no cycle is gone, because it leads into one |
| Tarjan.StrongConnect | src/atlas/store.py:279-292 | one call numbers and closes off everything reachable and emits exact components |
| Tarjan.Components | src/atlas/store.py:274-295 | the emitted components partition the graph into its strongly connected classes |
| Tarjan.CycleIds | src/atlas/store.py:274-298 | the marked ids are exactly those lying on a directed cycle, self-loops included |
| RestoreClosure.RejectLocally | src/atlas/store.py:260-272 | the two local passes mark exactly the relations that claim a proof and are not proved by it, the proofs such relations name, and the proofs that the relation of their identity does not name |
| RestoreClosure.MatchesExactly | src/atlas/store.py:339-392 | the test of a relation and its proof passes exactly if each participant is what the bindings pair with the head's participant, predicate, version, polarity, scope and exactness are those of rule and context, and the sources are those of the dependencies, which the snapshot holds |
| RestoreClosure.Alternate | src/atlas/store.py:311-327 | the alternating passes terminate at the greatest consistent choice of proofs and snapshots |
| RestoreClosure.ValidateDerivationPairs | src/atlas/store.py:252-337 | what is published is the greatest mutually consistent set avoiding the locally rejected and cyclic ids, and every published proof proves the relation published under its identity |
| RestoreClosure.PublishedSound | src/atlas/store.py:252-337 | published proofs have their relation, dependencies and snapshot, published snapshots their parent and records, and dependencies are acyclic |
| Rules.ListUniqueValues | src/atlas/store.py:1151-1156 | the loop lists the values up to and including the first repetition |
| RuleTheorems.SeemsDistinctExactly | src/atlas/store.py:1151-1156 | comparing lengths accepts exactly the lists in which no value but the last repeats an earlier one |
| Rules.ReadingState.Dependency | src/atlas/rules.py:20-21 | afterwards the record is listed; everything listed keeps its place, nothing else is added and nothing is listed twice |
| Rules.ReadingState.ReadProperty | src/atlas/rules.py:67-105 | reading a property node updates the mutable state as the pure reading does, with the same failures |
| Rules.ReadingState.EvaluateExpr | src/atlas/rules.py:63-122 | the recursive evaluation with mutable state computes the pure three-valued evaluation |
| Rules.Union | src/atlas/rules.py:112-116 | the left items, then exactly what is new on the right, in the order in which it first occurs there |
| RuleTheorems.TypedExactly | src/atlas/store.py:1169-1197 | the static check finds a type exactly for expressions of known operators |
| RuleTheorems.TypedEvaluates | src/atlas/rules.py:63-122 | a well-typed expression yields a value of its type or fails only by a foreign version or an inexact read |
| RuleTheorems.AdmittedIsTypeSafe | src/atlas/store.py:1169-1218 | an admitted rule of known operators never fails with a type, operator or participant error, and its truth comes from a subset test |
| RuleTheorems.SupportMarkExactly | src/atlas/store.py:1228-1234 | where nothing else stands in the way, a supported rule yields a truth if and only if it uses known operators only |
| RuleTheorems.StrayKeyMisleadsSupport | src/atlas/store.py:1228-1234 | a concrete admitted rule that is marked supported and never evaluates |
| RuleTheorems.EvaluationIsFaithful | src/atlas/rules.py:63-122 | UNKNOWN exactly when some leaf has no visible record or several, otherwise the set-theoretic value; the reads are exactly the leaves' |
| RuleTheorems.FootprintExactly | src/atlas/rules.py:16-23 | the dependencies are exactly the records the leaves are about, each once |
| GroundingTheorems.YieldsExactly | src/atlas/rules.py:63-122 | a condition evaluates without failure if and only if its operators are known, its property nodes name a participant and the snapshot's version, a single record about one is an exact set, and no subset test is an operand above known nodes only |
| Grounding.GroundRule | src/atlas/rules.py:125-169 | grounding with the mutable state computes the specified result over the effective records of the snapshot |
| GroundingTheorems.GroundExactly | src/atlas/rules.py:125-169 | exactly when a grounding is made, and of every grounding: its bindings, its truth by comparing what the effective records in scope list, its reads found, missing and ambiguous, and its conclusion with participants, scope and sources |
| Scopes.ObserveCandidate | src/atlas/scope.py:390-400 | one turn of the loop: discovery, grounding, and the error that stops them; ScopeTheorems.ObserveExactly says what it yields |
| Scopes.Evaluate | src/atlas/scope.py:385-407 | the evaluation loop computes the specified run or the specified error; ScopeTheorems.RunExactly says which |
| ScopeTheorems.DiscoverExactly | src/atlas/scope.py:310-332 | the evidence lists, ascending, exactly the effective positive relations of the snapshot's version that say the candidate realizes the intention, split by whether the context sees a name of their scope |
| ScopeTheorems.ObserveExactly | src/atlas/scope.py:390-400 | a candidate fails exactly without a version of the relation or a possible grounding; otherwise it has no exclusion if and only if one of these relations is seen |
| ScopeTheorems.RunExactly | src/atlas/scope.py:385-407 | a run is made exactly in an agreed environment with one rule, observes the manifest in order and is invalid exactly if a candidate failed |
| RunChecks.ResultExactly | src/atlas/scope.py:234-281 | the validator of stored groundings accepts exactly those made at the scope's snapshot and context by one of its rules, for the candidate and the request, that conclude the head as bound and depend on records they may depend on |
| RunChecks.EvidenceExactly | src/atlas/scope.py:284-307 | stored evidence passes exactly if it is the evidence that discovery finds |
| RunChecks.CompletenessExactly | src/atlas/scope.py:360-382 | the recomputed status: none unless environment and observations are sound, invalid if a candidate failed, complete if the whole manifest was gone through, incomplete otherwise |
| Scopes.GroundWellmade | src/atlas/rules.py:125-169 | every grounding binds its rule's participants in order, concludes its head and depends on distinct effective records |
| Scopes.GroundedIsOk | src/atlas/scope.py:234-281 | every grounding made for a candidate passes the validator of stored results |
| Scopes.EvaluationAgrees | src/atlas/scope.py:360-407 | the evaluation always publishes, lists the manifest in order, and its status equals the recomputed one |
| Problems.ObjectiveAgrees | src/atlas/problem.py:658-690 | the validator of an objective support accepts exactly the value that building finds |
| Problems.Build | src/atlas/problem.py:787-820 | the loop over the manifest computes the specified problem |
| Problems.ValidExactlyAsBuilt | src/atlas/problem.py:693-755 | a problem is valid if and only if building produces it and the run is in manifest order |
| RunChecks.ObjectiveExactly | src/atlas/problem.py:628-656 | a candidate has an objective if and only if exactly one record in view is its exact integer cost of the version, and then that record's |
| RunChecks.BuildExactly | src/atlas/problem.py:787-820 | a problem is built if and only if the run is sound and complete under one rule, and it gives each candidate as its observation has it, with the one price of every TRUE candidate in scope |
| Publications.ProblemAddedExactly | src/atlas/store.py:923-944 | a problem is published if and only if its identity is new and its complete run gives it so; nothing else changes |
| DisorderedRuns.DisorderedIsRestored | src/atlas/store.py:66-111 | a concrete file, whose run lists its observations out of manifest order, is opened to the state with that run and to no other |
| DisorderedRuns.DisorderedIsNeverValid | src/atlas/problem.py:787-820 | in the store so opened the problem built from the run is admitted, and no problem over it is valid |
| Selections.SelectionMeans | src/atlas/problem.py:326-361 | a selection is made if and only if exactly the TRUE candidates that count are priced; it needs information exactly with an unsettled one, has none admissible exactly if all are FALSE, and otherwise lists exactly those of least cost |
| Selections.AcceptedExactlyAsSelected | src/atlas/problem.py:401-437 | the independent validator accepts exactly the decisions with the selection's status, optimum and co-optima in any order |
| RunChecks.DecisionExactly | src/atlas/problem.py:401-437 | a decision over a priced problem is accepted if and only if it has that outcome and lists every co-optimum once |
| Publications.DecisionAddedExactly | src/atlas/store.py:964-988 | in every reachable state a selection is stored, as it is, if and only if its identity is new and it has the outcome of a stored problem, every co-optimum once |
| Statuses.DependencyClosure | src/atlas/store.py:814-838 | the depth-first listing contains, each once, exactly what a trail of dependencies leads to from a relation included by some observation's evidence, a dependency of some candidate's grounding or the record of its cost |
| Statuses.Status | src/atlas/store.py:840-864 | the classification computes the specified standing, its error included; Standings.StatusExactly says which |
| Standings.StatusExactly | src/atlas/store.py:840-864 | in a sound store: INVALID off the branch or if run and effective records no longer give the problem, else STALE if and only if such a trail leads to something replaced at or above the reference, else CURRENT |
| Statuses.ClosureIsEffective | src/atlas/store.py:814-838 | everything a valid problem of the current schema rests on is effective at its own snapshot |
| Statuses.StaleExactly | src/atlas/store.py:853-862 | a standing decision is STALE if and only if a trail of dependencies from an included relation, a grounding's dependency or a cost record leads to something replaced strictly below its snapshot and at or above the reference |
| Statuses.NeverStaleAtSource | src/atlas/store.py:840-864 | a decision of the current schema is never STALE at its own snapshot |
| Statuses.StaleBelow | src/atlas/store.py:840-864 | STALE at a snapshot is STALE at every descendant |
| Statuses.CurrentBelow | src/atlas/store.py:840-864 | CURRENT at a snapshot is CURRENT at every descendant that sees no further replacement |
| StoreTheorems.ReplacedBelowExactly | src/atlas/store.py:747-864 | a replacement made strictly below a decision's snapshot that hides nothing there turns CURRENT into STALE if and only if a trail leads to the retired record |
| RetiredRelation.RetiringTurnsStale | src/atlas/store.py:816-862 | a run from the empty store: of two candidates the one admitted by a seen relation is chosen and the cheaper one, of which only an unseen relation speaks, is excluded; retiring the first relation at a later snapshot turns CURRENT into STALE there and nowhere above |
| Explanations.ExplainCandidate | src/atlas/problem.py:454-513 | a candidate is explained exactly when its dependencies are present; its closure, reason and sources are the specified ones |
| Explanations.ExplainCandidates | src/atlas/problem.py:492-513 | the loop explains all candidates in order, or none |
| ExplanationTheorems.ExplainsExactly | src/atlas/problem.py:454-514 | a candidate of an accepted decision is explained if and only if no record its grounding rests on is absent, with the reason its truth, scope and cost give, those records each once and exactly their sources |
| Explanations.Explain | src/atlas/problem.py:440-516 | an explanation is built if and only if the decision is valid, its dependencies are present and its optimum is at least 1; all checks of its parts hold |
| Explanations.JudgedIsExplicable | src/atlas/problem.py:181-230 | the explanation of a candidate of an accepted decision always passes its construction checks |
| Explanations.WholeExplained | src/atlas/problem.py:241-291 | the explanation of the whole decision passes its checks if and only if its optimum is not below 1 |
| StoreSteps.LatestVersions | src/atlas/store.py:1158-1163 | whatever the order of entries, every name keeps its greatest version |
| StepContents.ConfiguredExactly | src/atlas/store.py:620-656 | a vocabulary is merged entry by entry if and only if no entry differs from a known one |
| Admissions.RuleAdmittedExactly | src/atlas/store.py:1169-1234 | a rule is admitted if and only if its head is its distinct participants under a known predicate and its condition, the only version filled in wherever one is left out, is well-formed and a subset test; it is kept as so filled |
| Admissions.ItemExactly | src/atlas/store.py:663-709 | what admission demands of each kind of item, in terms of what is already there, and that exactly the item as given is added |
| Admissions.BatchExactly | src/atlas/store.py:658-722 | a batch is published if and only if every item finds its demands met by the store and the items before it, and then as the items in turn publish it |
| StepContents.TakenExactly | src/atlas/store.py:724-745 | a snapshot is taken if and only if its identity is free and its parent there, and fixes all records in ascending order, the latest version of every name and the definitions as they are |
| StepContents.SupersededExactly | src/atlas/store.py:747-762 | a record is retired if and only if it is not yet, by another record of the same slot and snapshot from which no replacements lead back to it |
| StepContents.DerivedExactly | src/atlas/store.py:1019-1112 | a grounding is admitted if and only if its proof proves the relation it concludes, under a free identity that no dependency rests on; exactly that relation and proof are added |
| StepContents.CreatedExactly | src/atlas/store.py:875-888 | a scope is published if and only if its identity is free, its manifests list nothing twice, and snapshot and store agree on context, rule versions and descriptions |
| StepContents.RunScopeExactly | src/atlas/store.py:900-910 | a run is published if and only if the scope has none yet, one rule and an agreed environment; it observes the manifest over the records effective at the snapshot |
| StoreFrames.StepExtends | src/atlas/store.py:620-745 | every step except a replacement only adds, and adds no proof for an old record |
| StoreFrames.EffectiveFrame | src/atlas/store.py:779-812 | additions leave the effective view of every existing snapshot alone |
| StoreFrames.GroundFrame | src/atlas/rules.py:125-169 | additions leave the grounding of every rule at every existing snapshot alone |
| StoreInvariants.AdmitAllKeeps | src/atlas/store.py:658-722 | admitting a batch keeps every invariant of the store |
| StoreInvariants.TakenKeeps | src/atlas/store.py:724-745 | a new snapshot keeps the tree acyclic and every invariant |
| StoreInvariants.SupersededKeeps | src/atlas/store.py:747-762 | a replacement keeps the relation a cycle-free partial function and every invariant |
| StoreInvariants.DerivedKeeps | src/atlas/store.py:1019-1112 | an admitted derivation is paired with its relation, fits its snapshot and keeps dependencies acyclic |
| StoreInvariants.CycleTestNeverFires | src/atlas/store.py:1114-1121 | in a sound state a fresh identity is never reached from admitted records |
| StoreInvariants.StepKeepsSound | src/atlas/store.py:620-1112 | every step keeps every invariant, the validity of all stored decisions included |
| StoreInvariants.RunKeepsSound | src/atlas/store.py:620-1112 | every run keeps every invariant |
| StatusFrames.StatusFrame | src/atlas/store.py:840-864 | additions change the standing of no decision at any existing snapshot |
| StoreTheorems.ReachableSound | src/atlas/store.py:56-61 | every state reachable from an empty store satisfies every invariant |
| StoreTheorems.HistoryStands | src/atlas/store.py:620-745 | over any run without replacements earlier views, groundings and standings stay what they were |
| StoreTheorems.StaleNeverRecovers | src/atlas/store.py:840-864 | over any run a STALE decision is never CURRENT again at or below that snapshot |
| StoreTheorems.ElsewhereStatusExactly | src/atlas/store.py:747-762 | a replacement on another branch leaves a standing alone if and only if the reference is off the decision's branch or its problem is equally valid in the view its own snapshot gets |
| StoreTheorems.ElsewhereKeepsStatus | src/atlas/store.py:747-762 | so it does when the replacement is not effective at the decision's own snapshot, or is the target of a replacement visible there |
| StoreTheorems.ReplacementEnds | src/atlas/store.py:787-796 | in every reachable state following replacements ends at a record replaced no further |
| StoreTheorems.ReachableRulesAreTypeSafe | src/atlas/rules.py:63-122 | in every reachable state a rule of known operators is settled by a subset test or fails only in the two tolerated ways |
| StoreTheorems.ClosureKeepsExactly | src/atlas/store.py:252-337 | given all rows of a reachable state the closure over proofs keeps every record, proof and snapshot if and only if no relation borrows a proof |
| StoreTheorems.BorrowerTakesOwnerDown | src/atlas/store.py:262-268 | a relation naming another's proof is dropped on restore together with that pair |
| StoreTheorems.BorrowingIsReachable | src/atlas/store.py:671-685 | an ordinary admission reaches such a state |
| StoreTheorems.ReachableIsExplainable | src/atlas/store.py:999-1011 | without borrowed proofs a stored decision can be explained if and only if its problem is still valid |
| StoreTheorems.EdgesPublished | src/atlas/store.py:553-583 | the rows of a cycle-free relation are all published again, whatever their order |
| StoreGuarantees.SelectionIsAdmitted | src/atlas/store.py:955-988 | the selection from a stored problem always exists and is always admitted as a decision |
| Reopening.DefinitionClosure | src/atlas/store.py:204-250 | the rounds end at the greatest set of snapshots whose definitions are active and whose parents are in the set |
| Reopening.LoadKnowledge | src/atlas/store.py:66-98 | row tests, definition passes, replacements and proofs composed: the published and the isolated knowledge of any file |
| Reopening.LoadRuns | src/atlas/store.py:509-516 | a run is restored exactly when it has its shape and scope and its recomputed status is the stored one |
| Reopening.LoadProblems | src/atlas/store.py:517-528 | a problem is restored exactly when it has its shape and passes its validator |
| Reopening.Load | src/atlas/store.py:66-111 | scopes, runs, problems and decisions are restored after the knowledge, each against what came before |
| LoadedStates.LoadedGuarantees | src/atlas/store.py:66-98 | of any file: records and proofs are sound, proofs and replacements acyclic, snapshots and contexts closed, no proof borrowed |
| LoadedStates.RuleLoadedExactly | src/atlas/store.py:410-418 | a restored rule is one that admission makes if and only if its stored support mark is the computed one |
| LoadedStates.LoadedSoundExactly | src/atlas/store.py:66-111 | the opened store satisfies every invariant if and only if edges and snapshots are in their place, support marks computed and runs current and in manifest order |
| LoadedStates.LoadedUniquely | src/atlas/store.py:66-111 | a file is opened to one state only, isolated rows included, whatever order rows and sets are walked in |
| LoadedRows.RuleInForceExactly | src/atlas/store.py:164-202 | a rule is in force if and only if its row passes its test and the snapshots with a say name it nowhere or somewhere as it is |
| LoadedRows.ContextInForceExactly | src/atlas/store.py:164-202 | a context is in force if and only if the snapshots confirm it likewise and every rule it enables is in force |
| LoadedRows.IsolatedExactly | src/atlas/store.py:66-98 | which rows of each kind are set aside |
| LoadedProofs.ProofLoadedExactly | src/atlas/store.py:252-337 | of any file: a proof is published if and only if it proves the relation of its identity from published records at a published snapshot, both rows pass their own tests and no other relation names it |
| LoadedProofs.LoadedConclusion | src/atlas/store.py:339-392 | of any file: a published derived relation is the conclusion of its proof, participant by participant |
| LoadedProofs.UnprovedIsIsolated | src/atlas/store.py:252-337 | of any file: a relation and a proof that differ in any of this are set aside |
| LoadedDecisions.ScopeLoadedExactly | src/atlas/store.py:503-508 | a scope is restored if and only if its manifests list nothing twice and its environment is agreed on |
| LoadedDecisions.RunLoadedExactly | src/atlas/store.py:509-516 | a run is restored if and only if its observations have their shape, it is sound, and its status is the one told |
| LoadedDecisions.ProblemLoadedExactly | src/atlas/store.py:517-528 | a problem is restored if and only if its run, listed in manifest order, still gives it |
| LoadedDecisions.DecisionLoadedExactly | src/atlas/store.py:529-536 | a decision is restored if and only if it has the outcome told of its restored problem |
| ReopeningTheorems.RuleKeptExactly | src/atlas/store.py:410-418 | a rule of a reachable state is restored if and only if its participants are distinct |
| ReopeningTheorems.SnapshotKeptExactly | src/atlas/store.py:419-485 | a snapshot passes its row test if and only if every record, rule and context it holds does |
| ReopeningTheorems.DefinitionsUpheld | src/atlas/store.py:164-202 | in rows of a reachable state no definition falls for the sake of a snapshot |
| ReopeningTheorems.EdgesReopenedExactly | src/atlas/store.py:486-493 | an edge of a reachable state is published again if and only if both its records and its snapshot pass |
| ReopeningTheorems.ReopenedExactly | src/atlas/store.py:66-98 | reopening keeps all knowledge of a reachable state if and only if no proof is borrowed and no relation and no rule repeats a participant where its row test looks |
| ReopeningTheorems.LoadsItself | src/atlas/store.py:66-98 | sound and reopenable knowledge is what its own rows are opened to |
| IsolationFrames.ClearedSound | src/atlas/store.py:161-162 | the list of isolated rows supports no invariant: a sound state stays sound without it |
| IsolationFrames.ClearedExplainable | src/atlas/store.py:999-1011 | isolated rows hide nothing published, so the same decisions can be explained without the list of them |
| ReopenedDecisions.RunReopenedExactly | src/atlas/store.py:509-516 | a run is restored if and only if its recomputed completeness is the stored one |
| ReopenedDecisions.ProblemReopenedExactly | src/atlas/store.py:517-528 | a problem is restored if and only if it is still valid |
| ReopenedDecisions.DecisionReopenedExactly | src/atlas/store.py:529-536 | from the rows a sound reopenable store has published a decision is restored if and only if it can be explained |
| ReopenedDecisions.SoundReopens | src/atlas/store.py:66-111 | from the rows it has published, a sound reopenable store comes back sound, with its knowledge and scopes and exactly the explainable decisions |
| ReopenedDecisions.ReachableReopens | src/atlas/store.py:66-111 | in particular whatever was done to an empty store |
| ReopeningWitnesses.RefusedRelationTakesDown | src/atlas/store.py:545-551 | a refused relation is lost with its proof, every snapshot that holds it and every edge made there |
| ReopeningWitnesses.RepeatedRuleTakesDown | src/atlas/store.py:410-415 | a refused rule is lost with every context that enables it and every snapshot that fixes it |
| ReopeningWitnesses.RepeatedNeverGrounds | src/atlas/rules.py:139-140 | a rule that repeats a participant can never be grounded |
| ReopeningWitnesses.RepeatedRuleIsReachable | src/atlas/store.py:685-699 | admission accepts the supported rule with participants x, x |
| ReopeningWitnesses.BorrowedReplacementDangles | src/atlas/store.py:85-98 | an edge to a relation that borrows a proof is published while the relation and the snapshot are dropped |
| ReopeningWitnesses.DanglingIsReachable | src/atlas/store.py:747-762 | a run of four steps comes to such an edge |
| RepeatedConclusion.RepeatedConclusionIsReachable | src/atlas/store.py:1019-1112 | a run grounds an ordinary rule and admits the relation d, d, e, which its row test refuses |
| Store.Store.constructor | src/atlas/store.py:56-61 | the object holds what opening makes of any rows, and is valid if and only if the loaded state is in order |
| Store.AdmitBatch | src/atlas/store.py:658-709 | the loop over copies computes the admission of the whole batch or its first refusal |
| Store.Store.ConfigureVocabulary | src/atlas/store.py:620-643 | the vocabulary grows without conflict or nothing changes |
| Store.Store.Admit | src/atlas/store.py:658-722 | the batch is published whole or not at all |
| Store.Store.TakeSnapshot | src/atlas/store.py:724-745 | the snapshot fixes all records and definitions with the latest versions, or nothing changes |
| Store.Store.Supersede | src/atlas/store.py:747-762 | exactly an admissible edge is published |
| Store.Store.RestsAlready | src/atlas/store.py:1114-1121 | the search decides whether some dependency already rests on the proposed identity |
| Store.Store.AdmitDerived | src/atlas/store.py:1019-1112 | exactly a fitting TRUE grounding is published, as a relation with its proof |
| Store.Store.CreateDecisionScope | src/atlas/store.py:875-888 | exactly a scope whose environment the snapshot and the store agree on is published |
| Store.Store.EvaluateDecisionScope | src/atlas/store.py:900-910 | a run is published exactly for a stored scope of one rule that has none yet |
| Store.Store.AdmitGroundedDecisionProblem | src/atlas/store.py:923-944 | exactly the problem that building produces is published |
| Store.Store.SelectM1 | src/atlas/store.py:955-962 | every stored problem has a selection that would be admitted |
| Store.Store.AdmitM1Decision | src/atlas/store.py:964-988 | exactly a selection that passes the validator is published |
| Store.Store.StatusOf | src/atlas/store.py:840-864 | the specified standing of a decision relative to a snapshot |
| Planner.UniqueProducerTuple | experiments/candidate-discovery/candidate_discovery.py:59-63 | the tuple is sorted by name and holds exactly the last producer of every name |
| Planner.ResolveResources | experiments/candidate-discovery/candidate_discovery.py:72-142 | the recursive search with growing lists computes the specified resolutions and terminates on every catalogue |
| Planner.DiscoverPlans | experiments/candidate-discovery/candidate_discovery.py:145-182 | the enumeration lists the specified plans; PlannerTheorems.PlansSound and PlansComplete say which |
| PlannerTheorems.ResolveSound | experiments/candidate-discovery/candidate_discovery.py:72-142 | every resolution's producers are enabled, can be ordered and produce each resource once |
| PlannerTheorems.ResolveComplete | experiments/candidate-discovery/candidate_discovery.py:72-142 | every executable producer set that covers the wanted resources contains some resolution |
| PlannerTheorems.PlansSound | experiments/candidate-discovery/candidate_discovery.py:145-182 | every plan names, field by field, a choice that can be carried out: goals, realizations in order, the producers' names ascending, exactly the present resources something in it asks for, exactly the resources of its producers, and their summed costs; no producer is idle or makes what is present |
| PlannerTheorems.PlansComplete | experiments/candidate-discovery/candidate_discovery.py:145-182 | for every choice that can be carried out some plan names, field by field, the same realizations with part of its producers, and without negative costs costs no more |
| PlannerTheorems.PlanExistsExactly | experiments/candidate-discovery/candidate_discovery.py:145-186 | a plan is returned if and only if some choice can be carried out |
| PlannerTheorems.ChooseBestSpec | experiments/candidate-discovery/candidate_discovery.py:185-186 | the chosen plan is one of the plans and none is cheaper |
| PlannerTheorems.PlannerOptimal | experiments/candidate-discovery/candidate_discovery.py:145-186 | no executable choice of realizations and producers is cheaper than the chosen plan |
| PlannerTheorems.CostsAdd | experiments/candidate-discovery/candidate_discovery.py:177-178 | the cost of a selection and of a producer tuple grows by exactly the cost of each member |
| Explosion.NaiveChain | experiments/candidate-discovery/step3_explosion.py:129-147 | the uncached search computes the chains of a resource |
| Explosion.ChainCache.MemoChain | experiments/candidate-discovery/step3_explosion.py:239-259 | the cached search computes the same chains, and every cache entry equals them |
| Explosion.NaiveSearch | experiments/candidate-discovery/step3_explosion.py:150-193 | the loops list the specified naive plans |
| Explosion.Canonicalize | experiments/candidate-discovery/step3_explosion.py:196-236 | the dictionary ends with exactly the canonical forms of the plans that produce nothing twice, and the three counters account for every other plan |
| Explosion.MemoizedSearch | experiments/candidate-discovery/step3_explosion.py:262-301 | the loops with the cache list the specified memoised plans |
| Explosion.Prune | experiments/candidate-discovery/step3_explosion.py:304-320 | of the plans that realize the same and offer the same resources with the same properties exactly the first cheapest is kept |
| ExplosionTheorems.ProducesOnceExactly | experiments/candidate-discovery/step3_explosion.py:204-210 | comparing set sizes decides whether some resource is produced twice |
| ExplosionTheorems.NaiveFoundByMemo | experiments/candidate-discovery/step3_explosion.py:196-301 | the canonical form of every valid naive plan is a memoised plan |
| ExplosionTheorems.MemoFoundByNaive | experiments/candidate-discovery/step3_explosion.py:196-301 | every memoised plan is the canonical form of a valid naive plan |
| ExplosionTheorems.MemoRefinesNaive | experiments/candidate-discovery/step3_explosion.py:150-301 | on layered catalogues the memoised plans are exactly the canonical naive plans with the same shared-once costs |
| ExplosionPlans.ChainsExactly | experiments/candidate-discovery/step3_explosion.py:129-147 | the chains of a resource are exactly the names of the lists of producers that start from nothing, each depend on what the one before makes, and end with the resource |
| ExplosionPlans.NaivePlansExactly | experiments/candidate-discovery/step3_explosion.py:150-193 | exactly which plans the naive search lists: one alternative per intent, one chain per requirement, every step of every chain paid for |
| ExplosionPlans.MemoPlansExactly | experiments/candidate-discovery/step3_explosion.py:262-301 | exactly which plans the memoised search lists: one alternative per intent, one chain per required resource, the names ascending and each paid for once |
| ExplosionPlans.SumsGrow | experiments/candidate-discovery/step3_explosion.py:150-193 | the costs grow by exactly one member's cost: the alternative's, the first producer's of the name, the last producer's of the name |
| GeneratedCatalog.GenerateCatalog | experiments/candidate-discovery/step3_explosion.py:69-122 | the loops make the specified catalogue, or refuse the parameters |
| GeneratedCatalog.SearchesAgree | experiments/candidate-discovery/step3_explosion.py:69-301 | every generated catalogue is layered, so the two searches agree on it |
| GeneratedCatalog.AlternativeTold | experiments/candidate-discovery/step3_explosion.py:78-97 | every alternative at its place: name, intent, cost, and the deepest resource of its group unless it is the first |
| GeneratedCatalog.ProducerTold | experiments/candidate-discovery/step3_explosion.py:98-111 | every producer at its place: name, resource, the resource below and cost, with just enough groups for the intents |
| Scheduling.ExactSchedule | experiments/temporal-planning/step3_counterexamples.py:44-67 | the loop keeps the first strictly better accepted assignment of the bounded box; SchedulingTheorems.DeadlineExact and OpenExactCondition say what that is worth |
| Scheduling.EnumerateOptimum | experiments/temporal-planning/step3_counterexamples.py:69-80 | no selection's schedule beats the returned one, among equals the first selection is returned, and none only if none is feasible |
| Scheduling.LocalIndex | experiments/temporal-planning/step3_counterexamples.py:82-87 | the index of the first among the options of least duration and name |
| Scheduling.SelectIndependentlyThenSchedule | experiments/temporal-planning/step3_counterexamples.py:89-92 | the local policy schedules its own selection |
| SchedulingTheorems.DeadlineExact | experiments/temporal-planning/step3_counterexamples.py:38-67 | with a deadline the answer is the first of the feasible schedules that end earliest, over all start times, or infeasible exactly when there is none; feasible means deadline, precedence, and at every time the tasks under way fit together |
| SchedulingTheorems.OrderableExactly | experiments/temporal-planning/step3_counterexamples.py:44-67 | start times that respect precedence exist if and only if no task that takes time lies on a cycle of precedence edges |
| SchedulingTheorems.HorizonSuffices | experiments/temporal-planning/step3_counterexamples.py:38-67 | without a deadline, with such precedence and tasks that fit alone, the sum of durations loses no optimum: the answer is exact in the same sense |
| SchedulingTheorems.OpenExactCondition | experiments/temporal-planning/step3_counterexamples.py:44-67 | without a deadline the answer is exact if and only if some task that takes time precedes itself, all tasks fit alone, or one that does not has a successor |
| SchedulingTheorems.OversizedTaskIsReportedFeasible | experiments/temporal-planning/step3_counterexamples.py:59-61 | a concrete task that cannot run is reported as scheduled |
| SchedulingTheorems.NeverLosesToLocal | experiments/temporal-planning/step3_counterexamples.py:69-92 | the enumerated optimum is never worse than the local policy |
| SchedulingTheorems.GlobalOptimum | experiments/temporal-planning/step3_counterexamples.py:69-80 | with a deadline and sensible quantities the enumeration is optimal over all selections and all start times, and first among what ends as early |
| SchedulingTheorems.OpenGlobalOptimum | experiments/temporal-planning/step3_counterexamples.py:69-80 | without a deadline it is so whenever the exactness condition holds of every selection |
| SchedulingTheorems.AcyclicGlobalOptimum | experiments/temporal-planning/step3_counterexamples.py:69-80 | in particular when precedence is acyclic and every option fits alone |
| DerivationGraph.Colouring.Visit | knowledge-corpus/validate.py:137-147 | the recursive visit keeps the colours sound, terminates on every graph and reports only real closed walks |
| DerivationGraph.ValidateDerivationGraph | knowledge-corpus/validate.py:119-150 | the verdict is justified: a self-reference, exactly the missing bases of an assertion, a closed walk when there is neither, or none of these |
| DerivationGraph.AcceptedExactly | knowledge-corpus/validate.py:119-150 | the corpus is accepted if and only if all bases exist and the graph has no cycle |
| DerivationGraph.ClosedWalkIsCyclic | knowledge-corpus/validate.py:139-141 | a reported walk ends at a node it already visited and proves a cycle |
| Jsonl.LineBuffer.Extend | tools/atlas_agent/jsonl.py:33-43 | the buffer holds the pending line or its prefix and never more than the bound |
| Jsonl.LineBuffer.Feed | tools/atlas_agent/jsonl.py:29-50 | a chunk yields exactly the lines it completes, whatever comes later |
| Jsonl.IterBoundedJsonl | tools/atlas_agent/jsonl.py:9-50 | for every way of cutting the file the entries are those of splitting it whole |
| Jsonl.LinesRoundTrip | tools/atlas_agent/jsonl.py:9-50 | without oversized lines joining the entries gives the file back up to its last newline |
| Jsonl.LatestAgentReport | tools/atlas_agent/codex_executor.py:946-975 | the last agent message is returned exactly when the records are well formed and no oversized line follows it |
| ContextSupplement.DecodedIsWellformed | tools/atlas_agent/journal.py:94-115 | whatever the parser returns is a well-formed form |
| ContextSupplement.RoundTrip | tools/atlas_agent/journal.py:81-115 | parsing the printed text of a well-formed form gives the form back |
| ContextSupplement.PrintedText | tools/atlas_agent/journal.py:81-93 | the printed text line by line |
| ContextSupplement.AcceptedExactly | tools/atlas_agent/journal.py:700-710 | the validator accepts exactly the printed texts, of at most 4096 bytes, of well-formed forms that speak of the parent generation |
| Offsets.DecodePrefix | src/atlas/python_semantic_query.py:293-301 | a prefix of an encoded line decodes exactly at a character boundary, to the characters before it |
| Offsets.ConvertExactly | src/atlas/python_semantic_query.py:286-302 | the conversion is defined exactly at character boundaries and gives the target's boundary |
| Offsets.ConvertIncreases | src/atlas/python_semantic_query.py:286-302 | later offsets convert to later offsets |
| Offsets.ConvertRoundTrip | src/atlas/python_semantic_query.py:286-302 | converting there and back gives the offset back |
| Offsets.LinesBreak | src/atlas/python_semantic_query.py:281-283 | the two replacements and the split read CRLF, CR and LF breaks from the left |
| Offsets.RangeExactly | src/atlas/python_semantic_query.py:305-318 | a range is accepted exactly when both ends convert and are given in order, and its ends convert back |

## Left out

- Persistence: SQLite tables, transactions and JSON encoding; rows are already decoded values and a persisted step is atomic.
- Evidence digests: a digest is a function of the content it covers, so every value is taken to carry the right one.
- Store.Store.constructor: takes decoded rows; the decoding of JSON, the table that tells which row owns a knowledge identity, and the isolation of refused scopes, runs, problems and decisions are not modelled.
- ReopenedDecisions.SoundReopens: speaks of the rows a store has published; rows refused at an earlier opening, which a larger vocabulary may let in later, are not among them.
- Store.Store.Admit: identities are taken to be valid; the code parses a relation's proof reference only while publishing, so an invalid one fails after the batch is committed.
- Decoding and exact-type checks of identities, texts, snapshots, scopes and runs: these are the Dafny types and the shape predicates.
- Roles of predicates and cardinalities of properties, labels of descriptions, and `admit_fixture`.
- Restored legacy scopes and runs, except where the validators treat them; the live steps make current ones only.
- The diagnostic texts of errors: a failure is told apart from success and, where the code branches on it, from other failures.
- Selections.DecisionOk: a TRUE candidate without an objective makes the source fail with an attribute error; the model counts it as a refusal.
- Scopes.Evaluate: re-evaluates the effective view where the source does, but the text of a structural error is one word.
- Explosion.NaiveSearch: expansion limits and the counters of states and frontiers are measurement and not modelled.
- ContextSupplement.RoundTrip: `int` is modelled for ASCII digits and blanks; the comparison of a supplement with the recorded parent's own fields is not modelled.
- Offsets.DecodePrefix: sixteen-bit units stand for their two bytes, so the byte order of UTF-16 is not modelled.
- Jsonl.LatestAgentReport: decoding one JSON line is a parameter; a missing or unreadable file is not modelled.
- The solver-backed oracles (`joint_cp_sat` and the egglog experiments), which call foreign code.
- The agent's processes, namespaces, file copying and journal replay, and the language-server client.
- `structured_rules.py`, whose evaluators are simpler than the one modelled.

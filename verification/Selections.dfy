/** The selection from a grounded problem and the validator of stored decisions (src/atlas/problem.py,
    `_select_m1` and `validate_persisted_decision`). */
module Selections {
  import opened Model
  import opened Ordering
  import opened Problems
  import opened Rules

  // ---------------------------------------------------------------- the selection

  /** The candidates that count, in order. */
  function Scoped(candidates: seq<Candidate>, current: bool): (r: seq<Candidate>)
    ensures forall c :: c in r <==> c in candidates && InScope(c.exclusion, current)
  {
    if candidates == [] then []
    else (if InScope(candidates[0].exclusion, current) then [candidates[0]] else []) + Scoped(candidates[1..], current)
  }

  function Trues(candidates: seq<Candidate>): (r: seq<Candidate>)
    ensures forall c :: c in r <==> c in candidates && c.truth.True?
  {
    if candidates == [] then []
    else (if candidates[0].truth.True? then [candidates[0]] else []) + Trues(candidates[1..])
  }

  /** The check of the objective of one candidate before anything is selected. */
  predicate ObjectiveFits(p: Problem, c: Candidate)
  {
    if c.truth.True? then
      && c.objective.Some? && c.objective.value.property == "cost" && c.objective.value.version == p.objectiveVersion
      && c.objective.value.epistemic.Exact?
    else c.objective.None?
  }

  function Cost(c: Candidate): int
  {
    if c.objective.Some? then c.objective.value.value else 0
  }

  function Minimum(candidates: seq<Candidate>): (m: int)
    requires candidates != []
    ensures forall c :: c in candidates ==> m <= Cost(c)
    ensures exists c :: c in candidates && m == Cost(c)
  {
    if |candidates| == 1 then Cost(candidates[0])
    else
      var rest := Minimum(candidates[1..]);
      if Cost(candidates[0]) <= rest then
        assert candidates[0] in candidates;
        Cost(candidates[0])
      else
        rest
  }

  function AtCost(candidates: seq<Candidate>, cost: int): seq<Id>
  {
    if candidates == [] then []
    else (if Cost(candidates[0]) == cost then [candidates[0].candidate] else []) + AtCost(candidates[1..], cost)
  }

  /** `_select_m1`. */
  function SelectM1(source: Id, p: Problem, current: bool): Option<Selection>
  {
    var scoped := Scoped(p.candidates, current);
    if exists c :: c in scoped && !ObjectiveFits(p, c) then None
    else if exists c :: c in scoped && c.truth.Unsettled? then Some(Selection(source, NeedsInformation, None, []))
    else if Trues(scoped) == [] then Some(Selection(source, NoAdmissibleCandidate, None, []))
    else
      var optimum := Minimum(Trues(scoped));
      Some(Selection(source, Resolved, Some(optimum), AtCost(Trues(scoped), optimum)))
  }

  // ---------------------------------------------------------------- the validator

  /** The dictionary from candidates to costs. */
  function Costs(trues: seq<Candidate>): map<Id, int>
  {
    if trues == [] then map[] else map[trues[0].candidate := Cost(trues[0])] + Costs(trues[1..])
  }

  /** `validate_persisted_decision`. */
  predicate DecisionOk(candidates: seq<Candidate>, current: bool, d: Decision)
  {
    var scoped := Scoped(candidates, current);
    if exists c :: c in scoped && c.truth.Unsettled? then d.status.NeedsInformation? && d.optimum.None? && d.coOptima == []
    else if Trues(scoped) == [] then d.status.NoAdmissibleCandidate? && d.optimum.None? && d.coOptima == []
    else
      && d.status.Resolved? && d.optimum.Some? && d.coOptima != []
      && (forall c :: c in Trues(scoped) ==> c.objective.Some?)
      && var costs := Costs(Trues(scoped));
      && IsMinimum(costs, d.optimum.value)
      && ListsExactly(d.coOptima, set c | c in costs && costs[c] == d.optimum.value)
  }

  predicate IsMinimum(costs: map<Id, int>, m: int)
  {
    m in costs.Values && forall cost :: cost in costs.Values ==> m <= cost
  }

  predicate ListsExactly(names: seq<Id>, expected: set<Id>)
  {
    (set x | x in names) == expected && |names| == |expected|
  }

  function DecisionOf(id: Id, s: Selection): Decision
  {
    Decision(id, s.source, s.status, s.optimum, s.coOptima)
  }

  // ---------------------------------------------------------------- what is selected

  /** A candidate that is in scope and TRUE. */
  predicate Admissible(c: Candidate, current: bool)
  {
    InScope(c.exclusion, current) && c.truth.True?
  }

  lemma {:induction false} AtCostMembers(candidates: seq<Candidate>, cost: int)
    ensures forall x :: x in AtCost(candidates, cost) <==> exists c :: c in candidates && c.candidate == x && Cost(c) == cost
  {
    if candidates != [] {
      AtCostMembers(candidates[1..], cost);
      forall x ensures x in AtCost(candidates, cost) <==> exists c :: c in candidates && c.candidate == x && Cost(c) == cost {
        if c :| c in candidates && c.candidate == x && Cost(c) == cost && c != candidates[0] {
          assert c in candidates[1..];
        }
      }
    }
  }

  /** Under the current schema a candidate with an exclusion does not count. */
  predicate Counts(c: Candidate, current: bool)
  {
    current ==> c.exclusion == None
  }

  /** The candidate counts, is TRUE and costs this much. */
  ghost predicate CostsExactly(c: Candidate, current: bool, cost: int)
  {
    Counts(c, current) && c.truth == True && c.objective.Some? && c.objective.value.value == cost
  }

  /** A selection is made when exactly the TRUE candidates that count have an exact cost of the problem's version. */
  ghost predicate Selectable(p: Problem, current: bool)
  {
    forall c :: c in p.candidates && Counts(c, current) ==>
      && (c.truth == True <==> c.objective.Some?)
      && (c.objective.Some? ==>
            c.objective.value.property == "cost" && c.objective.value.version == p.objectiveVersion && c.objective.value.epistemic == Exact)
  }

  /** In the terms of the code. */
  lemma SelectionFinds(source: Id, p: Problem, current: bool)
    requires SelectM1(source, p, current).Some?
    ensures var s := SelectM1(source, p, current).value;
            && (s.status.NeedsInformation? <==> exists c :: c in p.candidates && InScope(c.exclusion, current) && c.truth.Unsettled?)
            && (s.status.Resolved? ==>
                  && s.optimum.Some?
                  && (exists c :: c in p.candidates && Admissible(c, current) && Cost(c) == s.optimum.value)
                  && (forall c :: c in p.candidates && Admissible(c, current) ==> s.optimum.value <= Cost(c))
                  && forall x :: x in s.coOptima <==>
                       exists c :: c in p.candidates && Admissible(c, current) && c.candidate == x && Cost(c) == s.optimum.value)
            && (s.status.NoAdmissibleCandidate? ==> forall c :: c in p.candidates && InScope(c.exclusion, current) ==> c.truth.False?)
  {
    var s := SelectM1(source, p, current).value;
    var scoped := Scoped(p.candidates, current);
    assert forall c :: c in Trues(scoped) <==> c in p.candidates && Admissible(c, current);
    if s.status.Resolved? {
      AtCostMembers(Trues(scoped), s.optimum.value);
    }
  }

  lemma SelectableExactly(source: Id, p: Problem, current: bool)
    ensures SelectM1(source, p, current).Some? <==> Selectable(p, current)
  {
    var scoped := Scoped(p.candidates, current);
    forall c ensures c in scoped <==> c in p.candidates && Counts(c, current) {
    }
  }

  /** The optimum and the co-optima of a selection with an optimum. */
  ghost predicate OptimumTold(p: Problem, current: bool, optimum: int, coOptima: seq<Id>)
  {
    && coOptima != []
    && (forall c, cost :: c in p.candidates && CostsExactly(c, current, cost) ==> optimum <= cost)
    && forall x :: x in coOptima <==> exists c :: c in p.candidates && c.candidate == x && CostsExactly(c, current, optimum)
  }

  lemma OptimumMeans(source: Id, p: Problem, current: bool)
    requires SelectM1(source, p, current).Some? && SelectM1(source, p, current).value.status == Resolved
    ensures var s := SelectM1(source, p, current).value; s.optimum.Some? && OptimumTold(p, current, s.optimum.value, s.coOptima)
  {
    var s := SelectM1(source, p, current).value;
    SelectionFinds(source, p, current);
    SelectableExactly(source, p, current);
    forall c, cost | c in p.candidates ensures CostsExactly(c, current, cost) <==> Admissible(c, current) && Cost(c) == cost {
      assert Counts(c, current) ==> (c.truth == True <==> c.objective.Some?);
    }
    var best :| best in p.candidates && Admissible(best, current) && Cost(best) == s.optimum.value;
    assert best.candidate in s.coOptima;
  }

  /** Nothing is selected while a candidate that counts is unsettled, or when all of them are FALSE; otherwise exactly
      those of least cost are. */
  ghost predicate OutcomeTold(p: Problem, current: bool, status: SelectionStatus, optimum: Option<int>, coOptima: seq<Id>)
  {
    && (status == NeedsInformation <==> exists c :: c in p.candidates && Counts(c, current) && c.truth == Unsettled)
    && (status == NoAdmissibleCandidate <==> forall c :: c in p.candidates && Counts(c, current) ==> c.truth == False)
    && (status == Resolved <==> optimum.Some?)
    && if optimum.Some? then OptimumTold(p, current, optimum.value, coOptima) else coOptima == []
  }

  lemma SelectionMeans(source: Id, p: Problem, current: bool)
    ensures SelectM1(source, p, current).Some? <==> Selectable(p, current)
    ensures SelectM1(source, p, current).Some? ==>
              var s := SelectM1(source, p, current).value;
              s.source == source && OutcomeTold(p, current, s.status, s.optimum, s.coOptima)
  {
    SelectableExactly(source, p, current);
    if SelectM1(source, p, current).Some? {
      var s := SelectM1(source, p, current).value;
      SelectionFinds(source, p, current);
      if s.status.Resolved? {
        OptimumMeans(source, p, current);
        var best :| best in p.candidates && Admissible(best, current) && Cost(best) == s.optimum.value;
        assert Counts(best, current) && best.truth != False;
      }
    }
  }

  lemma SameOptimum(p: Problem, current: bool, a: int, b: int, xs: seq<Id>, ys: seq<Id>)
    requires OptimumTold(p, current, a, xs) && OptimumTold(p, current, b, ys)
    ensures a == b && forall x :: x in xs <==> x in ys
  {
    assert xs[0] in xs && ys[0] in ys;
    var c :| c in p.candidates && c.candidate == xs[0] && CostsExactly(c, current, a);
    var d :| d in p.candidates && d.candidate == ys[0] && CostsExactly(d, current, b);
  }

  /** There is one outcome, up to the order of the co-optima. */
  lemma OneOutcome(p: Problem, current: bool, a: SelectionStatus, b: SelectionStatus, m: Option<int>, n: Option<int>, xs: seq<Id>, ys: seq<Id>)
    requires OutcomeTold(p, current, a, m, xs)
    ensures OutcomeTold(p, current, b, n, ys) <==> b == a && n == m && forall x :: x in ys <==> x in xs
  {
    if OutcomeTold(p, current, b, n, ys) {
      assert a == b;
      if m.Some? {
        SameOptimum(p, current, m.value, n.value, xs, ys);
      }
    } else if b == a && n == m && forall x :: x in ys <==> x in xs {
      assert ys == [] <==> xs == [] by {
        assert ys != [] ==> ys[0] in ys;
        assert xs != [] ==> xs[0] in xs;
      }
    }
  }

  // ---------------------------------------------------------------- selection and validator agree

  /** Candidates are listed once. */
  ghost predicate Distinct(candidates: seq<Candidate>)
  {
    forall i, j :: 0 <= i < j < |candidates| ==> candidates[i].candidate != candidates[j].candidate
  }

  lemma {:induction false} ScopedDistinct(candidates: seq<Candidate>, current: bool)
    requires Distinct(candidates)
    ensures Distinct(Scoped(candidates, current))
  {
    if candidates != [] {
      ScopedDistinct(candidates[1..], current);
      HeadApart(candidates, Scoped(candidates[1..], current));
    }
  }

  lemma {:induction false} TruesDistinct(candidates: seq<Candidate>)
    requires Distinct(candidates)
    ensures Distinct(Trues(candidates))
  {
    if candidates != [] {
      TruesDistinct(candidates[1..]);
      HeadApart(candidates, Trues(candidates[1..]));
    }
  }

  lemma HeadApart(candidates: seq<Candidate>, some: seq<Candidate>)
    requires candidates != [] && Distinct(candidates) && Distinct(some)
    requires forall c :: c in some ==> c in candidates[1..]
    ensures Distinct([candidates[0]] + some)
  {
    forall i | 0 <= i < |some| ensures some[i].candidate != candidates[0].candidate {
      assert some[i] in candidates[1..];
    }
  }

  lemma {:induction false} CostsOf(trues: seq<Candidate>)
    requires Distinct(trues)
    ensures Costs(trues).Keys == set c | c in trues :: c.candidate
    ensures forall c :: c in trues ==> Costs(trues)[c.candidate] == Cost(c)
  {
    if trues != [] {
      CostsOf(trues[1..]);
      assert trues == [trues[0]] + trues[1..];
      assert trues[0].candidate !in Costs(trues[1..]);
    }
  }

  lemma {:induction false} AtCostCounts(trues: seq<Candidate>, cost: int)
    requires Distinct(trues)
    ensures var chosen := AtCost(trues, cost);
            && DistinctNames(chosen)
            && (forall x :: x in chosen <==> x in Costs(trues) && Costs(trues)[x] == cost)
  {
    CostsOf(trues);
    AtCostMembers(trues, cost);
    if trues != [] {
      AtCostCounts(trues[1..], cost);
      CostsOf(trues[1..]);
      assert trues[0].candidate !in AtCost(trues[1..], cost);
      NamesPrepend(trues[0].candidate, AtCost(trues[1..], cost));
    }
  }

  lemma NamesPrepend(x: Id, names: seq<Id>)
    requires DistinctNames(names) && x !in names
    ensures DistinctNames([x] + names)
  {
  }

  lemma {:induction false} DistinctCounts(names: seq<Id>)
    ensures |set x | x in names| <= |names|
    ensures DistinctNames(names) <==> |set x | x in names| == |names|
  {
    if names != [] {
      DistinctCounts(names[1..]);
      var rest := set x | x in names[1..];
      assert (set x | x in names) == rest + {names[0]};
      if names[0] in rest {
        var i :| 0 <= i < |names[1..]| && names[1..][i] == names[0];
        assert names[0] == names[i + 1];
      } else {
        HeadRepeatsNot(names);
      }
    }
  }

  lemma HeadRepeatsNot(names: seq<Id>)
    requires names != [] && names[0] !in names[1..]
    ensures DistinctNames(names) <==> DistinctNames(names[1..])
  {
    assert forall i :: 0 < i < |names| ==> names[i] == names[1..][i - 1] && names[1..][i - 1] in names[1..];
  }

  /**
   * Whenever a selection exists, the validator accepts exactly the decisions with its status, its
   * optimum and its co-optima in any order; in particular it accepts the selection itself.
   */
  lemma AcceptedExactlyAsSelected(source: Id, p: Problem, current: bool, d: Decision)
    requires Distinct(p.candidates) && SelectM1(source, p, current).Some?
    ensures var s := SelectM1(source, p, current).value;
            DecisionOk(p.candidates, current, d)
            <==> && d.status == s.status && d.optimum == s.optimum
                 && DistinctNames(d.coOptima) && forall x :: x in d.coOptima <==> x in s.coOptima
    ensures DecisionOk(p.candidates, current, DecisionOf(d.id, SelectM1(source, p, current).value))
  {
    var s := SelectM1(source, p, current).value;
    SelectedIsAccepted(p, current, s);
    if s.status.Resolved? {
      AcceptedWhenResolved(p, current, s, d);
      AcceptedWhenResolved(p, current, s, DecisionOf(d.id, s));
    } else {
      assert d.coOptima == [] || d.coOptima[0] in d.coOptima;
    }
  }

  lemma SelectedIsAccepted(p: Problem, current: bool, s: Selection)
    requires Distinct(p.candidates) && SelectM1(s.source, p, current) == Some(s)
    ensures DistinctNames(s.coOptima)
  {
    if s.status.Resolved? {
      var scoped := Scoped(p.candidates, current);
      ScopedDistinct(p.candidates, current);
      TruesDistinct(scoped);
      AtCostCounts(Trues(scoped), s.optimum.value);
    }
  }

  lemma ListsExactlyMeans(names: seq<Id>, expected: set<Id>)
    ensures ListsExactly(names, expected) <==> DistinctNames(names) && forall x :: x in names <==> x in expected
  {
    DistinctCounts(names);
    if forall x :: x in names <==> x in expected {
      assert (set x | x in names) == expected;
    }
  }

  lemma AcceptedWhenResolved(p: Problem, current: bool, s: Selection, d: Decision)
    requires Distinct(p.candidates) && SelectM1(s.source, p, current) == Some(s) && s.status.Resolved?
    ensures DecisionOk(p.candidates, current, d)
       <==> && d.status.Resolved? && d.optimum == s.optimum
            && DistinctNames(d.coOptima) && forall x :: x in d.coOptima <==> x in s.coOptima
  {
    var trues := Trues(Scoped(p.candidates, current));
    ScopedDistinct(p.candidates, current);
    TruesDistinct(Scoped(p.candidates, current));
    assert forall c :: c in trues ==> ObjectiveFits(p, c);
    if d.optimum.Some? {
      LeastCost(trues, d.optimum.value);
    }
    if d.status.Resolved? && d.optimum == s.optimum {
      var expected := set x | x in Costs(trues) && Costs(trues)[x] == s.optimum.value;
      AtCostCounts(trues, s.optimum.value);
      assert forall x :: x in expected <==> x in s.coOptima;
      ListsExactlyMeans(d.coOptima, expected);
      SomeAtMinimum(trues);
      if d.coOptima == [] {
        assert s.coOptima[0] in s.coOptima;
      }
    }
  }

  lemma SomeAtMinimum(trues: seq<Candidate>)
    requires trues != []
    ensures AtCost(trues, Minimum(trues)) != []
  {
    var least := Minimum(trues);
    var best :| best in trues && least == Cost(best);
    AtCostMembers(trues, least);
    assert best.candidate in AtCost(trues, least);
  }

  lemma CostValues(trues: seq<Candidate>, cost: int)
    requires Distinct(trues)
    ensures cost in Costs(trues).Values <==> exists c :: c in trues && Cost(c) == cost
  {
    CostsOf(trues);
    if cost in Costs(trues).Values {
      var k :| k in Costs(trues) && Costs(trues)[k] == cost;
      var c :| c in trues && c.candidate == k;
    }
    if c :| c in trues && Cost(c) == cost {
      assert Costs(trues)[c.candidate] == cost;
    }
  }

  lemma LeastCost(trues: seq<Candidate>, m: int)
    requires Distinct(trues) && trues != []
    ensures IsMinimum(Costs(trues), m) <==> m == Minimum(trues)
  {
    var costs, least := Costs(trues), Minimum(trues);
    CostValues(trues, least);
    forall cost | cost in costs.Values ensures least <= cost {
      CostValues(trues, cost);
    }
    assert IsMinimum(costs, least);
  }
}

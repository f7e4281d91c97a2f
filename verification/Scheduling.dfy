/**
 * The bounded brute-force scheduling oracle and the comparison with the local policy
 * (experiments/temporal-planning/step3_counterexamples.py).
 */
module Scheduling {
  import opened Enumeration
  import opened Ordering

  datatype Alternative = Alternative(name: string, duration: int, scratch: int)

  datatype Scenario = Scenario(alternatives: seq<seq<Alternative>>, before: seq<(nat, nat)>,
                               capacity: int, deadline: Option<int>)

  datatype Schedule = Schedule(feasible: bool, makespan: Option<int>, starts: seq<int>)

  /** The indices the source follows exist: one choice per intention, edges between intentions. */
  ghost predicate Indexed(sc: Scenario, selection: seq<int>)
  {
    && |selection| == |sc.alternatives|
    && (forall i :: 0 <= i < |selection| ==> 0 <= selection[i] < |sc.alternatives[i]|)
    && EdgesIndexed(sc)
  }

  ghost predicate EdgesIndexed(sc: Scenario)
  {
    forall edge :: edge in sc.before ==> edge.0 < |sc.alternatives| && edge.1 < |sc.alternatives|
  }

  function Durations(sc: Scenario, selection: seq<int>): seq<int>
    requires Indexed(sc, selection)
  {
    seq(|selection|, i requires 0 <= i < |selection| => sc.alternatives[i][selection[i]].duration)
  }

  function Scratch(sc: Scenario, selection: seq<int>): seq<int>
    requires Indexed(sc, selection)
  {
    seq(|selection|, i requires 0 <= i < |selection| => sc.alternatives[i][selection[i]].scratch)
  }

  /** The sum of the entries of `values` whose index is in `chosen`. */
  function SumOver(values: seq<int>, chosen: set<int>): int
  {
    if values == [] then 0
    else
      var last := |values| - 1;
      SumOver(values[..last], chosen) + (if last in chosen then values[last] else 0)
  }

  function Total(values: seq<int>): int
  {
    if values == [] then 0 else Total(values[..|values| - 1]) + values[|values| - 1]
  }

  function Horizon(sc: Scenario, selection: seq<int>): int
    requires Indexed(sc, selection)
  {
    if sc.deadline.Some? then sc.deadline.value
    else Total(Durations(sc, selection))
  }

  function Ends(starts: seq<int>, durations: seq<int>): (ends: seq<int>)
    requires |starts| == |durations|
  {
    seq(|starts|, i requires 0 <= i < |starts| => starts[i] + durations[i])
  }

  /** The tasks running at `time`. */
  function Running(starts: seq<int>, durations: seq<int>, time: int): set<int>
    requires |starts| == |durations|
  {
    set i | 0 <= i < |starts| && starts[i] <= time < starts[i] + durations[i]
  }

  function MaxEnd(ends: seq<int>): (m: int)
    ensures ends != [] ==> m in ends
    ensures forall i :: 0 <= i < |ends| ==> ends[i] <= m
  {
    if ends == [] then 0
    else if |ends| == 1 then ends[0]
    else
      var m := MaxEnd(ends[..|ends| - 1]);
      if m < ends[|ends| - 1] then ends[|ends| - 1] else m
  }

  function Makespan(starts: seq<int>, durations: seq<int>): int
    requires |starts| == |durations|
  {
    MaxEnd(Ends(starts, durations))
  }

  predicate MeetsDeadline(deadline: Option<int>, starts: seq<int>, durations: seq<int>)
    requires |starts| == |durations|
  {
    deadline.Some? ==> forall i :: 0 <= i < |starts| ==> starts[i] + durations[i] <= deadline.value
  }

  predicate MeetsPrecedence(before: seq<(nat, nat)>, starts: seq<int>, durations: seq<int>)
    requires |starts| == |durations|
    requires forall edge :: edge in before ==> edge.0 < |starts| && edge.1 < |starts|
  {
    forall k :: 0 <= k < |before| ==>
      var edge := before[k];
      assert edge in before;
      starts[edge.0] + durations[edge.0] <= starts[edge.1]
  }

  /** The three tests of the search: deadline, precedence, and capacity at the times below the horizon. */
  predicate Accepts(sc: Scenario, selection: seq<int>, starts: seq<int>)
    requires Indexed(sc, selection) && |starts| == |selection|
  {
    var durations, scratch := Durations(sc, selection), Scratch(sc, selection);
    && MeetsDeadline(sc.deadline, starts, durations)
    && MeetsPrecedence(sc.before, starts, durations)
    && forall time :: 0 <= time < Horizon(sc, selection) ==>
         SumOver(scratch, Running(starts, durations, time)) <= sc.capacity
  }

  function Range(n: int): (r: seq<int>)
    ensures |r| == (if n < 0 then 0 else n) && forall i :: 0 <= i < |r| ==> r[i] == i
    decreases if n < 0 then 0 else n
  {
    if n <= 0 then [] else Range(n - 1) + [n - 1]
  }

  lemma RangeMembers(n: int)
    ensures forall x :: x in Range(n) <==> 0 <= x < n
  {
    forall x | 0 <= x < n ensures x in Range(n) {
      assert Range(n)[x] == x;
    }
  }

  /** `product(range(horizon + 1), repeat=len(selection))`. */
  function Candidates(sc: Scenario, selection: seq<int>): (candidates: seq<seq<int>>)
    requires Indexed(sc, selection)
  {
    Product(seq(|selection|, i requires 0 <= i < |selection| => Range(Horizon(sc, selection) + 1)))
  }

  lemma CandidateMembers(sc: Scenario, selection: seq<int>, starts: seq<int>)
    requires Indexed(sc, selection)
    ensures starts in Candidates(sc, selection)
       <==> |starts| == |selection| && forall i :: 0 <= i < |starts| ==> 0 <= starts[i] <= Horizon(sc, selection)
  {
    var pools := seq(|selection|, i requires 0 <= i < |selection| => Range(Horizon(sc, selection) + 1));
    ProductMembers(pools, starts);
    RangeMembers(Horizon(sc, selection) + 1);
    assert forall i :: 0 <= i < |selection| ==> pools[i] == Range(Horizon(sc, selection) + 1);
  }

  /** The candidates are met in lexicographic order. */
  lemma CandidatesRise(sc: Scenario, selection: seq<int>)
    requires Indexed(sc, selection)
    ensures LexRising(Candidates(sc, selection))
  {
    assert Rising(Range(Horizon(sc, selection) + 1));
    ProductRises(seq(|selection|, i requires 0 <= i < |selection| => Range(Horizon(sc, selection) + 1)));
  }

  /** `best` stands before every other accepted candidate that ends as early. */
  ghost predicate FirstAt(sc: Scenario, selection: seq<int>, candidates: seq<seq<int>>, best: seq<int>)
    requires Indexed(sc, selection) && |best| == |selection|
    requires forall c :: c in candidates ==> |c| == |selection|
  {
    exists at :: 0 <= at < |candidates| && candidates[at] == best && LaterEnds(sc, selection, candidates, at)
  }

  /** Whatever is accepted before `at` ends later than the candidate at `at`. */
  ghost predicate LaterEnds(sc: Scenario, selection: seq<int>, candidates: seq<seq<int>>, at: int)
    requires Indexed(sc, selection) && 0 <= at < |candidates|
    requires forall c :: c in candidates ==> |c| == |selection|
  {
    forall i :: 0 <= i < at && Accepts(sc, selection, candidates[i]) ==>
      Makespan(candidates[at], Durations(sc, selection)) < Makespan(candidates[i], Durations(sc, selection))
  }

  /** The first accepted candidate of least makespan. */
  function FirstBest(sc: Scenario, selection: seq<int>, candidates: seq<seq<int>>): (best: Option<seq<int>>)
    requires Indexed(sc, selection)
    requires forall c :: c in candidates ==> |c| == |selection|
    ensures best.Some? ==> best.value in candidates && Accepts(sc, selection, best.value)
    ensures forall c :: c in candidates && Accepts(sc, selection, c) ==>
              best.Some? && Makespan(best.value, Durations(sc, selection)) <= Makespan(c, Durations(sc, selection))
  {
    if candidates == [] then None
    else
      var last := candidates[|candidates| - 1];
      var init := candidates[..|candidates| - 1];
      assert candidates == init + [last];
      assert last in candidates;
      var best := FirstBest(sc, selection, init);
      var durations := Durations(sc, selection);
      if Accepts(sc, selection, last)
         && (best.None? || Makespan(last, durations) < Makespan(best.value, durations))
      then Some(last) else best
  }

  lemma FirstBestMore(sc: Scenario, selection: seq<int>, candidates: seq<seq<int>>, k: nat)
    requires Indexed(sc, selection) && k < |candidates|
    requires forall c :: c in candidates ==> |c| == |selection|
    ensures var best, next, durations := FirstBest(sc, selection, candidates[..k]), candidates[k], Durations(sc, selection);
            FirstBest(sc, selection, candidates[..k + 1])
            == if Accepts(sc, selection, next) && (best.None? || Makespan(next, durations) < Makespan(best.value, durations))
               then Some(next) else best
  {
    assert candidates[..k + 1][..k] == candidates[..k];
  }

  lemma {:induction false} FirstBestIsFirst(sc: Scenario, selection: seq<int>, candidates: seq<seq<int>>)
    requires Indexed(sc, selection)
    requires forall c :: c in candidates ==> |c| == |selection|
    ensures var best := FirstBest(sc, selection, candidates); best.Some? ==> FirstAt(sc, selection, candidates, best.value)
  {
    if candidates != [] {
      var last := |candidates| - 1;
      assert candidates == candidates[..last] + [candidates[last]];
      FirstBestIsFirst(sc, selection, candidates[..last]);
      var before, best := FirstBest(sc, selection, candidates[..last]), FirstBest(sc, selection, candidates);
      if best != before {
        LastIsFirst(sc, selection, candidates);
      } else if best.Some? {
        var at :| 0 <= at < last && candidates[..last][at] == best.value && LaterEnds(sc, selection, candidates[..last], at);
        LaterEndsLonger(sc, selection, candidates, last, at);
      }
    }
  }

  lemma LastIsFirst(sc: Scenario, selection: seq<int>, candidates: seq<seq<int>>)
    requires Indexed(sc, selection) && candidates != []
    requires forall c :: c in candidates ==> |c| == |selection|
    requires FirstBest(sc, selection, candidates) != FirstBest(sc, selection, candidates[..|candidates| - 1])
    ensures FirstAt(sc, selection, candidates, candidates[|candidates| - 1])
    ensures FirstBest(sc, selection, candidates) == Some(candidates[|candidates| - 1])
  {
    var last := |candidates| - 1;
    var init := candidates[..last];
    forall i | 0 <= i < last && Accepts(sc, selection, candidates[i])
      ensures Makespan(candidates[last], Durations(sc, selection)) < Makespan(candidates[i], Durations(sc, selection))
    {
      assert init[i] in init && candidates[i] == init[i];
    }
    assert LaterEnds(sc, selection, candidates, last);
  }

  lemma LaterEndsLonger(sc: Scenario, selection: seq<int>, candidates: seq<seq<int>>, n: nat, at: int)
    requires Indexed(sc, selection) && 0 <= at < n <= |candidates|
    requires forall c :: c in candidates ==> |c| == |selection|
    requires LaterEnds(sc, selection, candidates[..n], at)
    ensures LaterEnds(sc, selection, candidates, at)
  {
    forall i | 0 <= i < at && Accepts(sc, selection, candidates[i])
      ensures Makespan(candidates[at], Durations(sc, selection)) < Makespan(candidates[i], Durations(sc, selection))
    {
      assert candidates[..n][i] == candidates[i];
    }
  }

  /** What `exact_schedule` answers. */
  function Oracle(sc: Scenario, selection: seq<int>): Schedule
    requires Indexed(sc, selection)
  {
    assert forall c :: c in Candidates(sc, selection) ==> |c| == |selection| by {
      forall c | c in Candidates(sc, selection) ensures |c| == |selection| {
        CandidateMembers(sc, selection, c);
      }
    }
    match FirstBest(sc, selection, Candidates(sc, selection))
    case None => Schedule(false, None, [])
    case Some(starts) => Schedule(true, Some(Makespan(starts, Durations(sc, selection))), starts)
  }

  method ExactSchedule(sc: Scenario, selection: seq<int>) returns (answer: Schedule)
    requires Indexed(sc, selection)
    ensures answer == Oracle(sc, selection)
  {
    var durations := Durations(sc, selection);
    var best: Option<int>, bestStarts: seq<int> := None, [];
    var candidates := Candidates(sc, selection);
    forall c | c in candidates ensures |c| == |selection| {
      CandidateMembers(sc, selection, c);
    }
    for k := 0 to |candidates|
      invariant FirstBest(sc, selection, candidates[..k])
             == if best.Some? then Some(bestStarts) else None
      invariant best.None? ==> bestStarts == []
      invariant best.Some? ==> |bestStarts| == |selection| && best.value == Makespan(bestStarts, durations)
    {
      var starts := candidates[k];
      assert starts in candidates;
      FirstBestMore(sc, selection, candidates, k);
      if !Accepts(sc, selection, starts) {
        continue;
      }
      var makespan := Makespan(starts, durations);
      if best.None? || makespan < best.value {
        best, bestStarts := Some(makespan), starts;
      }
    }
    assert candidates[..|candidates|] == candidates;
    return Schedule(best.Some?, best, bestStarts);
  }

  // ---------------------------------------------------------------- choosing alternatives

  function Selections(sc: Scenario): seq<seq<int>>
  {
    Product(seq(|sc.alternatives|, i requires 0 <= i < |sc.alternatives| => Range(|sc.alternatives[i]|)))
  }

  lemma SelectionMembers(sc: Scenario, selection: seq<int>)
    ensures selection in Selections(sc)
       <==> |selection| == |sc.alternatives|
            && forall i :: 0 <= i < |selection| ==> 0 <= selection[i] < |sc.alternatives[i]|
  {
    ProductMembers(seq(|sc.alternatives|, i requires 0 <= i < |sc.alternatives| => Range(|sc.alternatives[i]|)), selection);
    forall i | 0 <= i < |sc.alternatives| ensures forall x :: x in Range(|sc.alternatives[i]|) <==> 0 <= x < |sc.alternatives[i]| {
      RangeMembers(|sc.alternatives[i]|);
    }
  }

  lemma SelectionsRise(sc: Scenario)
    ensures LexRising(Selections(sc))
  {
    ProductRises(seq(|sc.alternatives|, i requires 0 <= i < |sc.alternatives| => Range(|sc.alternatives[i]|)));
  }

  /** A selection with its schedule that no other selection's schedule beats, if any is feasible; among those
      that end as early it is the first in lexicographic order. */
  ghost predicate IsOptimum(sc: Scenario, selection: Option<seq<int>>, schedule: Option<Schedule>)
  {
    && (selection.Some? <==> schedule.Some?)
    && (selection.Some? ==> Indexed(sc, selection.value) && schedule.value == Oracle(sc, selection.value)
                            && schedule.value.feasible)
    && forall s :: Indexed(sc, s) && Oracle(sc, s).feasible ==>
         && schedule.Some? && schedule.value.makespan.value <= Oracle(sc, s).makespan.value
         && (schedule.value.makespan == Oracle(sc, s).makespan ==> s == selection.value || LexBelow(selection.value, s))
  }

  predicate AtLeastAsGood(schedule: Option<Schedule>, other: Schedule)
  {
    other.feasible && other.makespan.Some? ==>
      schedule.Some? && schedule.value.feasible && schedule.value.makespan.Some?
      && schedule.value.makespan.value <= other.makespan.value
  }

  /** The kept schedule is at least as good as every answer so far. */
  ghost predicate BestAnswer(answers: seq<Schedule>, schedule: Option<Schedule>)
  {
    && (schedule.Some? ==> schedule.value.feasible && schedule.value.makespan.Some?)
    && forall i :: 0 <= i < |answers| ==> AtLeastAsGood(schedule, answers[i])
  }

  /** No answer before `at` is as good as the one at `at`. */
  ghost predicate EarlierAnswersWorse(answers: seq<Schedule>, at: nat)
  {
    && at < |answers| && answers[at].makespan.Some?
    && forall i :: 0 <= i < at && answers[i].feasible && answers[i].makespan.Some? ==> answers[at].makespan.value < answers[i].makespan.value
  }

  predicate Improves(next: Schedule, schedule: Option<Schedule>)
    requires schedule.Some? ==> schedule.value.makespan.Some?
  {
    next.feasible && next.makespan.Some? && (schedule.None? || next.makespan.value < schedule.value.makespan.value)
  }

  lemma BestAnswerStep(answers: seq<Schedule>, schedule: Option<Schedule>, next: Schedule)
    requires BestAnswer(answers, schedule)
    ensures BestAnswer(answers + [next], if Improves(next, schedule) then Some(next) else schedule)
  {
  }

  /** The kept answer is as good as every answer so far, and the first that is. */
  ghost predicate Kept(selections: seq<seq<int>>, answers: seq<Schedule>, selection: Option<seq<int>>, schedule: Option<Schedule>)
  {
    && |answers| <= |selections| && BestAnswer(answers, schedule)
    && (selection.Some? <==> schedule.Some?)
    && (selection.Some? ==> KeptFirst(selections, answers, selection.value, schedule.value))
  }

  ghost predicate KeptFirst(selections: seq<seq<int>>, answers: seq<Schedule>, selection: seq<int>, schedule: Schedule)
    requires |answers| <= |selections|
  {
    exists at: nat :: at < |answers| && selections[at] == selection && answers[at] == schedule && EarlierAnswersWorse(answers, at)
  }

  lemma KeptStep(selections: seq<seq<int>>, answers: seq<Schedule>, selection: Option<seq<int>>, schedule: Option<Schedule>, next: Schedule)
    requires Kept(selections, answers, selection, schedule) && |answers| < |selections|
    ensures if Improves(next, schedule) then Kept(selections, answers + [next], Some(selections[|answers|]), Some(next))
            else Kept(selections, answers + [next], selection, schedule)
  {
    BestAnswerStep(answers, schedule, next);
    var more := answers + [next];
    if Improves(next, schedule) {
      forall i | 0 <= i < |answers| && more[i].feasible && more[i].makespan.Some? ensures next.makespan.value < more[i].makespan.value {
        assert AtLeastAsGood(schedule, answers[i]);
      }
      assert EarlierAnswersWorse(more, |answers|);
      assert more[|answers|] == next;
    } else if schedule.Some? {
      var at: nat :| at < |answers| && selections[at] == selection.value && answers[at] == schedule.value && EarlierAnswersWorse(answers, at);
      assert EarlierAnswersWorse(more, at) && more[at] == schedule.value;
    }
  }

  ghost predicate Answered(sc: Scenario, selections: seq<seq<int>>, answers: seq<Schedule>)
  {
    |answers| <= |selections| && forall i :: 0 <= i < |answers| ==> Indexed(sc, selections[i]) && answers[i] == Oracle(sc, selections[i])
  }

  lemma AnsweredStep(sc: Scenario, selections: seq<seq<int>>, answers: seq<Schedule>)
    requires Answered(sc, selections, answers) && |answers| < |selections| && Indexed(sc, selections[|answers|])
    ensures Answered(sc, selections, answers + [Oracle(sc, selections[|answers|])])
  {
  }

  lemma KeptIsOptimum(sc: Scenario, selections: seq<seq<int>>, answers: seq<Schedule>,
                      selection: Option<seq<int>>, schedule: Option<Schedule>)
    requires selections == Selections(sc) && |answers| == |selections|
    requires Answered(sc, selections, answers) && Kept(selections, answers, selection, schedule)
    ensures IsOptimum(sc, selection, schedule)
  {
    SelectionsRise(sc);
    forall s | Indexed(sc, s) && Oracle(sc, s).feasible
      ensures schedule.Some? && schedule.value.makespan.value <= Oracle(sc, s).makespan.value
      ensures schedule.value.makespan == Oracle(sc, s).makespan ==> s == selection.value || LexBelow(selection.value, s)
    {
      SelectionMembers(sc, s);
      var i :| 0 <= i < |selections| && selections[i] == s;
      assert AtLeastAsGood(schedule, answers[i]);
      var at: nat :| at < |answers| && selections[at] == selection.value && answers[at] == schedule.value && EarlierAnswersWorse(answers, at);
    }
  }

  /** `enumerate_optimum`: the oracle on every selection, keeping the first strictly better answer. */
  method EnumerateOptimum(sc: Scenario) returns (bestSelection: Option<seq<int>>, bestSchedule: Option<Schedule>)
    requires EdgesIndexed(sc)
    ensures IsOptimum(sc, bestSelection, bestSchedule)
  {
    bestSelection, bestSchedule := None, None;
    var selections := Selections(sc);
    ghost var answers := [];
    for k := 0 to |selections|
      invariant |answers| == k && Answered(sc, selections, answers)
      invariant Kept(selections, answers, bestSelection, bestSchedule)
      invariant bestSchedule.Some? ==> bestSchedule.value.makespan.Some?
    {
      assert selections[k] in selections;
      SelectionMembers(sc, selections[k]);
      var schedule := ExactSchedule(sc, selections[k]);
      AnsweredStep(sc, selections, answers);
      KeptStep(selections, answers, bestSelection, bestSchedule, schedule);
      answers := answers + [schedule];
      if schedule.feasible && (bestSchedule.None? || schedule.makespan.value < bestSchedule.value.makespan.value) {
        bestSelection, bestSchedule := Some(selections[k]), Some(schedule);
      }
    }
    KeptIsOptimum(sc, selections, answers, bestSelection, bestSchedule);
  }

  /** The pair order on (duration, name) that the local policy minimises. */
  predicate Before(a: Alternative, b: Alternative)
  {
    a.duration < b.duration || (a.duration == b.duration && Below(a.name, b.name))
  }

  /** The first index of least (duration, name). */
  function LocalIndex(options: seq<Alternative>): (index: nat)
    requires options != []
    ensures index < |options|
    ensures forall i :: 0 <= i < |options| ==> !Before(options[i], options[index])
    ensures forall i :: 0 <= i < index ==> Before(options[index], options[i])
  {
    if |options| == 1 then BelowTotal(options[0].name, options[0].name); 0
    else
      var last := |options| - 1;
      var index := LocalIndex(options[..last]);
      if Before(options[last], options[index]) then
        LocalStep(options, index, last);
        last
      else index
  }

  lemma LocalStep(options: seq<Alternative>, index: nat, last: nat)
    requires index < last == |options| - 1 && Before(options[last], options[index])
    requires forall i :: 0 <= i < last ==> !Before(options[i], options[index])
    ensures forall i :: 0 <= i < last ==> Before(options[last], options[i])
    ensures forall i :: 0 <= i < |options| ==> !Before(options[i], options[last])
  {
    BelowTotal(options[last].name, options[last].name);
    forall i | 0 <= i < last ensures Before(options[last], options[i]) && !Before(options[i], options[last]) {
      BelowTotal(options[i].name, options[index].name);
      if options[i].duration == options[index].duration == options[last].duration && options[i].name != options[index].name {
        BelowTransitive(options[last].name, options[index].name, options[i].name);
      }
      BelowTotal(options[i].name, options[last].name);
    }
  }

  /** The local policy; an intention without options makes the source's `min` fail. */
  function LocalSelection(sc: Scenario): Option<seq<int>>
  {
    if exists i :: 0 <= i < |sc.alternatives| && sc.alternatives[i] == [] then None
    else Some(seq(|sc.alternatives|, i requires 0 <= i < |sc.alternatives| => LocalIndex(sc.alternatives[i])))
  }

  method SelectIndependentlyThenSchedule(sc: Scenario) returns (r: Option<(seq<int>, Schedule)>)
    requires EdgesIndexed(sc)
    ensures r.None? <==> exists i :: 0 <= i < |sc.alternatives| && sc.alternatives[i] == []
    ensures r.Some? ==> LocalSelection(sc) == Some(r.value.0) && Indexed(sc, r.value.0)
                        && r.value.1 == Oracle(sc, r.value.0)
  {
    match LocalSelection(sc) {
      case None => r := None;
      case Some(selection) =>
        var schedule := ExactSchedule(sc, selection);
        r := Some((selection, schedule));
    }
  }
}

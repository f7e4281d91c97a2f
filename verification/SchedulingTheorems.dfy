/** The bounded search against schedules with arbitrary start times: when the bound is large enough. */
module SchedulingTheorems {
  import opened Enumeration
  import opened Ordering
  import opened Scheduling

  // ---------------------------------------------------------------- schedules without a bound

  /** When task `i` of the selection ends. */
  function EndOf(sc: Scenario, selection: seq<int>, starts: seq<int>, i: int): int
    requires Indexed(sc, selection) && 0 <= i < |starts| == |selection|
  {
    starts[i] + sc.alternatives[i][selection[i]].duration
  }

  /** `chosen` are the tasks under way at `time`: started, and not yet ended. */
  ghost predicate UnderWay(sc: Scenario, selection: seq<int>, starts: seq<int>, time: int, chosen: set<int>)
    requires Indexed(sc, selection) && |starts| == |selection|
  {
    forall i :: i in chosen <==> 0 <= i < |starts| && starts[i] <= time < EndOf(sc, selection, starts, i)
  }

  /** The scratch space that each task of the selection takes up. */
  ghost predicate TakesUp(sc: Scenario, selection: seq<int>, amounts: seq<int>)
    requires Indexed(sc, selection)
  {
    |amounts| == |selection| && forall i :: 0 <= i < |amounts| ==> amounts[i] == sc.alternatives[i][selection[i]].scratch
  }

  /**
   * A schedule at arbitrary non-negative times: every task ends by the deadline and before what it precedes
   * starts, and what is under way at one time, whatever the time, fits into the scratch space together.
   */
  ghost predicate Feasible(sc: Scenario, selection: seq<int>, starts: seq<int>)
    requires Indexed(sc, selection)
  {
    && |starts| == |selection|
    && (forall i :: 0 <= i < |starts| ==> 0 <= starts[i])
    && (sc.deadline.Some? ==> forall i :: 0 <= i < |starts| ==> EndOf(sc, selection, starts, i) <= sc.deadline.value)
    && (forall edge :: edge in sc.before ==> EndOf(sc, selection, starts, edge.0) <= starts[edge.1])
    && Fits(sc, selection, starts)
  }

  ghost predicate Fits(sc: Scenario, selection: seq<int>, starts: seq<int>)
    requires Indexed(sc, selection) && |starts| == |selection|
  {
    forall time, chosen, amounts :: UnderWay(sc, selection, starts, time, chosen) && TakesUp(sc, selection, amounts) ==>
      SumOver(amounts, chosen) <= sc.capacity
  }

  /** The last task ends at `end`; without any task that is 0. */
  ghost predicate EndsAt(sc: Scenario, selection: seq<int>, starts: seq<int>, end: int)
    requires Indexed(sc, selection) && |starts| == |selection|
  {
    && (forall i :: 0 <= i < |starts| ==> EndOf(sc, selection, starts, i) <= end)
    && if starts == [] then end == 0 else exists i :: 0 <= i < |starts| && EndOf(sc, selection, starts, i) == end
  }

  /** The answer is the truth about unbounded schedules: feasibility, the least end, and of the schedules that end
      then the one that is first in lexicographic order. */
  ghost predicate Exact(sc: Scenario, selection: seq<int>, answer: Schedule)
    requires Indexed(sc, selection)
  {
    && (answer.feasible <==> exists starts :: Feasible(sc, selection, starts))
    && (!answer.feasible ==> answer.makespan == None && answer.starts == [])
    && (answer.feasible ==>
          && answer.makespan.Some?
          && Feasible(sc, selection, answer.starts)
          && EndsAt(sc, selection, answer.starts, answer.makespan.value)
          && forall starts, end :: Feasible(sc, selection, starts) && EndsAt(sc, selection, starts, end) ==>
               && answer.makespan.value <= end
               && (end == answer.makespan.value ==> starts == answer.starts || LexBelow(answer.starts, starts)))
  }

  // ---------------------------------------------------------------- the tests of the search at every time

  /** The tests of the search without its bound on times. */
  ghost predicate AlwaysAccepted(sc: Scenario, selection: seq<int>, starts: seq<int>)
    requires Indexed(sc, selection)
  {
    && |starts| == |selection|
    && (forall i :: 0 <= i < |starts| ==> 0 <= starts[i])
    && MeetsDeadline(sc.deadline, starts, Durations(sc, selection))
    && MeetsPrecedence(sc.before, starts, Durations(sc, selection))
    && forall time: int :: SumOver(Scratch(sc, selection), Running(starts, Durations(sc, selection), time)) <= sc.capacity
  }

  lemma OrderMeans(sc: Scenario, selection: seq<int>, starts: seq<int>)
    requires Indexed(sc, selection) && |starts| == |selection|
    ensures MeetsPrecedence(sc.before, starts, Durations(sc, selection))
       <==> forall edge :: edge in sc.before ==> EndOf(sc, selection, starts, edge.0) <= starts[edge.1]
  {
    if MeetsPrecedence(sc.before, starts, Durations(sc, selection)) {
      forall edge | edge in sc.before ensures EndOf(sc, selection, starts, edge.0) <= starts[edge.1] {
        var k :| 0 <= k < |sc.before| && sc.before[k] == edge;
        assert starts[sc.before[k].0] + Durations(sc, selection)[sc.before[k].0] <= starts[sc.before[k].1];
      }
    } else {
      var k :| 0 <= k < |sc.before| && (assert sc.before[k] in sc.before;
                                        starts[sc.before[k].0] + Durations(sc, selection)[sc.before[k].0] > starts[sc.before[k].1]);
      assert sc.before[k] in sc.before;
    }
  }

  lemma RunningMeans(sc: Scenario, selection: seq<int>, starts: seq<int>, time: int, chosen: set<int>)
    requires Indexed(sc, selection) && |starts| == |selection|
    ensures UnderWay(sc, selection, starts, time, chosen) <==> chosen == Running(starts, Durations(sc, selection), time)
  {
    var running := Running(starts, Durations(sc, selection), time);
    assert forall i :: i in running <==> 0 <= i < |starts| && starts[i] <= time < EndOf(sc, selection, starts, i);
    if UnderWay(sc, selection, starts, time, chosen) {
      assert forall i :: i in chosen <==> i in running;
    }
  }

  lemma CapacityMeans(sc: Scenario, selection: seq<int>, starts: seq<int>)
    requires Indexed(sc, selection) && |starts| == |selection|
    ensures Fits(sc, selection, starts)
       <==> forall time: int :: SumOver(Scratch(sc, selection), Running(starts, Durations(sc, selection), time)) <= sc.capacity
  {
    var scratch := Scratch(sc, selection);
    assert TakesUp(sc, selection, scratch);
    forall amounts | TakesUp(sc, selection, amounts) ensures amounts == scratch {
      assert forall i :: 0 <= i < |amounts| ==> amounts[i] == scratch[i];
    }
    forall time, chosen ensures UnderWay(sc, selection, starts, time, chosen) <==> chosen == Running(starts, Durations(sc, selection), time) {
      RunningMeans(sc, selection, starts, time, chosen);
    }
    if Fits(sc, selection, starts) {
      forall time: int ensures SumOver(scratch, Running(starts, Durations(sc, selection), time)) <= sc.capacity {
        assert UnderWay(sc, selection, starts, time, Running(starts, Durations(sc, selection), time));
      }
    }
  }

  lemma FeasibleMeans(sc: Scenario, selection: seq<int>, starts: seq<int>)
    requires Indexed(sc, selection)
    ensures Feasible(sc, selection, starts) <==> AlwaysAccepted(sc, selection, starts)
  {
    if |starts| == |selection| {
      assert forall i :: 0 <= i < |starts| ==> EndOf(sc, selection, starts, i) == starts[i] + Durations(sc, selection)[i];
      OrderMeans(sc, selection, starts);
      CapacityMeans(sc, selection, starts);
    }
  }

  lemma MakespanMeans(sc: Scenario, selection: seq<int>, starts: seq<int>, end: int)
    requires Indexed(sc, selection) && |starts| == |selection|
    ensures EndsAt(sc, selection, starts, end) <==> end == Makespan(starts, Durations(sc, selection))
  {
    var ends := Ends(starts, Durations(sc, selection));
    assert forall i :: 0 <= i < |starts| ==> ends[i] == EndOf(sc, selection, starts, i);
    if starts != [] {
      var i :| 0 <= i < |ends| && ends[i] == MaxEnd(ends);
      assert EndOf(sc, selection, starts, i) == MaxEnd(ends);
    }
  }

  /** What remains to be shown of an answer: nothing that is always accepted beats it or precedes it. */
  lemma AnswerIsExact(sc: Scenario, selection: seq<int>)
    requires Indexed(sc, selection)
    requires forall c :: c in Candidates(sc, selection) ==> |c| == |selection|
    requires var best := FirstBest(sc, selection, Candidates(sc, selection));
             && (best.Some? ==> AlwaysAccepted(sc, selection, best.value))
             && forall starts :: AlwaysAccepted(sc, selection, starts) ==>
                  && best.Some?
                  && (Makespan(starts, Durations(sc, selection)) <= Makespan(best.value, Durations(sc, selection)) ==>
                        starts in Candidates(sc, selection) && Accepts(sc, selection, starts))
    ensures Exact(sc, selection, Oracle(sc, selection))
  {
    var candidates, durations := Candidates(sc, selection), Durations(sc, selection);
    var best := FirstBest(sc, selection, candidates);
    forall starts ensures Feasible(sc, selection, starts) <==> AlwaysAccepted(sc, selection, starts) {
      FeasibleMeans(sc, selection, starts);
    }
    if best.Some? {
      MakespanMeans(sc, selection, best.value, Makespan(best.value, durations));
      forall starts, end | Feasible(sc, selection, starts) && EndsAt(sc, selection, starts, end)
        ensures Makespan(best.value, durations) <= end
        ensures end == Makespan(best.value, durations) ==> starts == best.value || LexBelow(best.value, starts)
      {
        MakespanMeans(sc, selection, starts, end);
        if end <= Makespan(best.value, durations) {
          FirstOfTheBest(sc, selection, best.value, starts);
        }
      }
    }
  }

  lemma FirstOfTheBest(sc: Scenario, selection: seq<int>, best: seq<int>, starts: seq<int>)
    requires Indexed(sc, selection)
    requires forall c :: c in Candidates(sc, selection) ==> |c| == |selection|
    requires FirstBest(sc, selection, Candidates(sc, selection)) == Some(best)
    requires starts in Candidates(sc, selection) && Accepts(sc, selection, starts)
    ensures var durations := Durations(sc, selection); Makespan(best, durations) <= Makespan(starts, durations)
    ensures var durations := Durations(sc, selection);
            Makespan(best, durations) == Makespan(starts, durations) ==> starts == best || LexBelow(best, starts)
  {
    var candidates := Candidates(sc, selection);
    CandidatesRise(sc, selection);
    FirstBestIsFirst(sc, selection, candidates);
    var at :| 0 <= at < |candidates| && candidates[at] == best && LaterEnds(sc, selection, candidates, at);
    var k :| 0 <= k < |candidates| && candidates[k] == starts;
  }

  ghost predicate NonNegative(values: seq<int>)
  {
    forall i :: 0 <= i < |values| ==> 0 <= values[i]
  }

  /** Some start times respect every precedence edge. */
  ghost predicate Orderable(sc: Scenario, selection: seq<int>)
    requires Indexed(sc, selection)
  {
    exists starts :: |starts| == |selection| && NonNegative(starts)
                     && MeetsPrecedence(sc.before, starts, Durations(sc, selection))
  }

  /** The task takes time but does not fit even alone. */
  predicate Oversized(sc: Scenario, selection: seq<int>, i: int)
    requires Indexed(sc, selection) && 0 <= i < |selection|
  {
    Durations(sc, selection)[i] > 0 && Scratch(sc, selection)[i] > sc.capacity
  }

  predicate HasSuccessor(sc: Scenario, i: int)
  {
    exists edge :: edge in sc.before && edge.0 == i
  }

  // ---------------------------------------------------------------- sums

  lemma {:induction false} SumMonotone(values: seq<int>, a: set<int>, b: set<int>)
    requires NonNegative(values) && a <= b
    ensures 0 <= SumOver(values, a) <= SumOver(values, b) <= Total(values)
  {
    if values != [] {
      SumMonotone(values[..|values| - 1], a, b);
    }
  }

  lemma {:induction false} SumAdd(values: seq<int>, a: set<int>, i: int)
    requires 0 <= i < |values| && i !in a
    ensures SumOver(values, a + {i}) == SumOver(values, a) + values[i]
  {
    var last := |values| - 1;
    if i == last {
      SumOutside(values[..last], a, i);
    } else {
      SumAdd(values[..last], a, i);
    }
  }

  lemma {:induction false} SumOutside(values: seq<int>, a: set<int>, i: int)
    requires i >= |values|
    ensures SumOver(values, a + {i}) == SumOver(values, a)
  {
    if values != [] {
      SumOutside(values[..|values| - 1], a, i);
    }
  }

  lemma {:induction false} SumEmpty(values: seq<int>)
    ensures SumOver(values, {}) == 0
  {
    if values != [] {
      SumEmpty(values[..|values| - 1]);
    }
  }

  lemma SumSingle(values: seq<int>, i: int)
    requires 0 <= i < |values|
    ensures SumOver(values, {i}) == values[i]
  {
    SumEmpty(values);
    SumAdd(values, {}, i);
    assert {} + {i} == {i};
  }

  lemma SumAtLeast(values: seq<int>, a: set<int>, i: int)
    requires NonNegative(values) && i in a && 0 <= i < |values|
    ensures values[i] <= SumOver(values, a)
  {
    SumSingle(values, i);
    SumMonotone(values, {i}, a);
  }

  // ---------------------------------------------------------------- the precedence graph

  /** A walk along precedence edges, from its first task to its last. */
  ghost predicate Walk(before: seq<(nat, nat)>, tasks: seq<nat>)
  {
    |tasks| >= 2 && forall k :: 0 <= k < |tasks| - 1 ==> (tasks[k], tasks[k + 1]) in before
  }

  ghost predicate Precedes(before: seq<(nat, nat)>, j: nat, i: nat)
  {
    exists tasks :: Walk(before, tasks) && tasks[0] == j && tasks[|tasks| - 1] == i
  }

  ghost predicate AcyclicPrecedence(before: seq<(nat, nat)>)
  {
    forall i: nat :: !Precedes(before, i, i)
  }

  /** Only tasks that take no time precede themselves. */
  ghost predicate IdleCycles(sc: Scenario, selection: seq<int>)
    requires Indexed(sc, selection)
  {
    forall i: nat :: i < |selection| && Precedes(sc.before, i, i) ==> Durations(sc, selection)[i] == 0
  }

  lemma EdgePrecedes(before: seq<(nat, nat)>, edge: (nat, nat))
    requires edge in before
    ensures Precedes(before, edge.0, edge.1)
  {
    assert Walk(before, [edge.0, edge.1]);
  }

  lemma PrecedesFurther(before: seq<(nat, nat)>, j: nat, edge: (nat, nat))
    requires Precedes(before, j, edge.0) && edge in before
    ensures Precedes(before, j, edge.1)
  {
    var tasks :| Walk(before, tasks) && tasks[0] == j && tasks[|tasks| - 1] == edge.0;
    var longer := tasks + [edge.1];
    assert forall k :: 0 <= k < |longer| - 1 ==> (longer[k], longer[k + 1]) in before;
    assert Walk(before, longer);
  }

  /** A task ends before whatever it precedes starts. */
  lemma {:induction false} WalkInOrder(sc: Scenario, selection: seq<int>, starts: seq<int>, tasks: seq<nat>)
    requires Indexed(sc, selection) && |starts| == |selection| && NonNegative(Durations(sc, selection))
    requires MeetsPrecedence(sc.before, starts, Durations(sc, selection)) && Walk(sc.before, tasks)
    ensures tasks[0] < |starts| && tasks[|tasks| - 1] < |starts|
    ensures starts[tasks[0]] + Durations(sc, selection)[tasks[0]] <= starts[tasks[|tasks| - 1]]
    decreases |tasks|
  {
    var last := |tasks| - 1;
    var k :| 0 <= k < |sc.before| && sc.before[k] == (tasks[last - 1], tasks[last]);
    assert sc.before[k] in sc.before;
    if |tasks| > 2 {
      WalkInOrder(sc, selection, starts, tasks[..last]);
    }
  }

  /** The tasks that precede `i`. */
  ghost function Preceding(before: seq<(nat, nat)>, n: nat, i: nat): set<int>
  {
    set j: nat | j < n && Precedes(before, j, i) :: j
  }

  /** Every task can start once all that precede it would have run one after the other. */
  lemma PrecedingInOrder(sc: Scenario, selection: seq<int>, edge: (nat, nat))
    requires Indexed(sc, selection) && NonNegative(Durations(sc, selection)) && IdleCycles(sc, selection) && edge in sc.before
    ensures var durations, n := Durations(sc, selection), |selection|;
            SumOver(durations, Preceding(sc.before, n, edge.0)) + durations[edge.0] <= SumOver(durations, Preceding(sc.before, n, edge.1))
  {
    var durations, n := Durations(sc, selection), |selection|;
    var ahead, behind := Preceding(sc.before, n, edge.0), Preceding(sc.before, n, edge.1);
    EdgePrecedes(sc.before, edge);
    forall j: nat | j in ahead ensures j in behind {
      PrecedesFurther(sc.before, j, edge);
    }
    assert edge.0 in behind;
    if edge.0 in ahead {
      SumMonotone(durations, ahead, behind);
    } else {
      SumAdd(durations, ahead, edge.0);
      SumMonotone(durations, ahead + {edge.0 as int}, behind);
    }
  }

  /** The tasks can be ordered exactly when no task that takes time precedes itself. */
  lemma OrderableExactly(sc: Scenario, selection: seq<int>)
    requires Indexed(sc, selection) && NonNegative(Durations(sc, selection))
    ensures Orderable(sc, selection) <==> IdleCycles(sc, selection)
  {
    var durations := Durations(sc, selection);
    if Orderable(sc, selection) {
      var starts :| |starts| == |selection| && NonNegative(starts) && MeetsPrecedence(sc.before, starts, durations);
      forall i: nat | i < |selection| && Precedes(sc.before, i, i) ensures durations[i] == 0 {
        var tasks :| Walk(sc.before, tasks) && tasks[0] == i && tasks[|tasks| - 1] == i;
        WalkInOrder(sc, selection, starts, tasks);
      }
    }
    if IdleCycles(sc, selection) {
      var starts := seq(|selection|, i requires 0 <= i < |selection| => SumOver(durations, Preceding(sc.before, |selection|, i)));
      forall i | 0 <= i < |starts| ensures 0 <= starts[i] {
        SumMonotone(durations, Preceding(sc.before, |selection|, i), Preceding(sc.before, |selection|, i));
      }
      forall edge | edge in sc.before ensures starts[edge.0] + durations[edge.0] <= starts[edge.1] {
        PrecedingInOrder(sc, selection, edge);
      }
      assert MeetsPrecedence(sc.before, starts, durations);
      assert NonNegative(starts);
    }
  }

  // ---------------------------------------------------------------- with a deadline

  /** With a deadline every feasible schedule lies in the searched box and passes the bounded tests. */
  lemma DeadlineBox(sc: Scenario, selection: seq<int>, starts: seq<int>)
    requires Indexed(sc, selection) && sc.deadline.Some? && sc.capacity >= 0
    requires NonNegative(Durations(sc, selection))
    ensures AlwaysAccepted(sc, selection, starts)
       <==> starts in Candidates(sc, selection) && |starts| == |selection| && Accepts(sc, selection, starts)
  {
    CandidateMembers(sc, selection, starts);
    var durations, scratch := Durations(sc, selection), Scratch(sc, selection);
    if starts in Candidates(sc, selection) && Accepts(sc, selection, starts) {
      forall time: int ensures SumOver(scratch, Running(starts, durations, time)) <= sc.capacity {
        if !(0 <= time < sc.deadline.value) {
          assert Running(starts, durations, time) == {};
          SumEmpty(scratch);
        }
      }
    }
    if AlwaysAccepted(sc, selection, starts) {
      assert forall i :: 0 <= i < |starts| ==> durations[i] >= 0;
      assert Accepts(sc, selection, starts);
    }
  }

  /** With a deadline the bounded search is exact for every precedence relation. */
  lemma DeadlineExact(sc: Scenario, selection: seq<int>)
    requires Indexed(sc, selection) && sc.deadline.Some? && sc.capacity >= 0
    requires NonNegative(Durations(sc, selection))
    ensures Exact(sc, selection, Oracle(sc, selection))
  {
    var candidates := Candidates(sc, selection);
    forall c | c in candidates ensures |c| == |selection| {
      CandidateMembers(sc, selection, c);
    }
    forall starts | |starts| == |selection|
      ensures AlwaysAccepted(sc, selection, starts) <==> starts in candidates && Accepts(sc, selection, starts)
    {
      DeadlineBox(sc, selection, starts);
    }
    AnswerIsExact(sc, selection);
  }

  // ---------------------------------------------------------------- one task after the other

  /** Tasks ordered by start, then by end, then by index. */
  predicate Prior(starts: seq<int>, durations: seq<int>, j: int, i: int)
    requires |starts| == |durations| && 0 <= j < |starts| && 0 <= i < |starts|
  {
    || starts[j] < starts[i]
    || (starts[j] == starts[i] && durations[j] < durations[i])
    || (starts[j] == starts[i] && durations[j] == durations[i] && j < i)
  }

  function Earlier(starts: seq<int>, durations: seq<int>, late: set<int>, i: int): set<int>
    requires |starts| == |durations| && 0 <= i < |starts|
  {
    set j | 0 <= j < |starts| && j !in late && Prior(starts, durations, j, i)
  }

  /** Runs the tasks outside `late` one after the other in the order of `starts`; `late` tasks start at the horizon. */
  function Serial(starts: seq<int>, durations: seq<int>, late: set<int>): (serial: seq<int>)
    requires |starts| == |durations|
  {
    seq(|starts|, i requires 0 <= i < |starts| =>
      if i in late then Total(durations) else SumOver(durations, Earlier(starts, durations, late, i)))
  }

  lemma SerialBounds(starts: seq<int>, durations: seq<int>, late: set<int>, i: int)
    requires |starts| == |durations| && NonNegative(durations) && 0 <= i < |starts| && i !in late
    ensures 0 <= Serial(starts, durations, late)[i]
    ensures Serial(starts, durations, late)[i] + durations[i] <= Total(durations)
  {
    var earlier := Earlier(starts, durations, late, i);
    SumAdd(durations, earlier, i);
    SumMonotone(durations, earlier, earlier + {i});
  }

  lemma SerialSeparates(starts: seq<int>, durations: seq<int>, late: set<int>, j: int, i: int)
    requires |starts| == |durations| && NonNegative(durations)
    requires 0 <= j < |starts| && 0 <= i < |starts| && j !in late && i !in late
    requires Prior(starts, durations, j, i)
    ensures Serial(starts, durations, late)[j] + durations[j] <= Serial(starts, durations, late)[i]
  {
    var earlier := Earlier(starts, durations, late, j);
    SumAdd(durations, earlier, j);
    assert earlier + {j} <= Earlier(starts, durations, late, i);
    SumMonotone(durations, earlier + {j}, Earlier(starts, durations, late, i));
  }

  /** Tasks of no duration at the same instant get the same serial time. */
  lemma SerialTie(starts: seq<int>, durations: seq<int>, late: set<int>, j: int, i: int)
    requires |starts| == |durations| && NonNegative(durations)
    requires 0 <= j < |starts| && 0 <= i < |starts| && j !in late && i !in late
    requires starts[j] == starts[i] && durations[j] == durations[i] == 0
    ensures Serial(starts, durations, late)[j] == Serial(starts, durations, late)[i]
  {
    SumIgnoresZeros(durations, Earlier(starts, durations, late, j), Earlier(starts, durations, late, i));
  }

  lemma {:induction false} SumIgnoresZeros(values: seq<int>, a: set<int>, b: set<int>)
    requires forall k :: 0 <= k < |values| && (k in a <==> k !in b) ==> values[k] == 0
    ensures SumOver(values, a) == SumOver(values, b)
  {
    if values != [] {
      SumIgnoresZeros(values[..|values| - 1], a, b);
    }
  }

  lemma SerialMeetsPrecedence(sc: Scenario, selection: seq<int>, starts: seq<int>, late: set<int>)
    requires Indexed(sc, selection) && |starts| == |selection|
    requires NonNegative(Durations(sc, selection))
    requires MeetsPrecedence(sc.before, starts, Durations(sc, selection))
    requires forall i :: i in late ==> !HasSuccessor(sc, i)
    ensures MeetsPrecedence(sc.before, Serial(starts, Durations(sc, selection), late), Durations(sc, selection))
  {
    var durations := Durations(sc, selection);
    var serial := Serial(starts, durations, late);
    forall k | 0 <= k < |sc.before| ensures serial[sc.before[k].0] + durations[sc.before[k].0] <= serial[sc.before[k].1] {
      var edge := sc.before[k];
      assert edge in sc.before;
      var l, r := edge.0, edge.1;
      assert HasSuccessor(sc, l);
      SerialBounds(starts, durations, late, l);
      if r !in late {
        if starts[l] < starts[r] || durations[l] < durations[r] {
          SerialSeparates(starts, durations, late, l, r);
        } else {
          SerialTie(starts, durations, late, l, r);
        }
      }
    }
  }

  /** At most one task outside `late` runs at a time, so capacity holds below the horizon. */
  lemma SerialMeetsCapacity(sc: Scenario, selection: seq<int>, starts: seq<int>, late: set<int>, time: int)
    requires Indexed(sc, selection) && |starts| == |selection| && sc.capacity >= 0
    requires NonNegative(Durations(sc, selection))
    requires forall i :: 0 <= i < |selection| && i !in late ==> !Oversized(sc, selection, i)
    requires late == {} || time < Total(Durations(sc, selection))
    ensures SumOver(Scratch(sc, selection), Running(Serial(starts, Durations(sc, selection), late), Durations(sc, selection), time))
         <= sc.capacity
  {
    var durations, scratch := Durations(sc, selection), Scratch(sc, selection);
    var serial := Serial(starts, durations, late);
    var running := Running(serial, durations, time);
    assert forall i :: i in running ==> i !in late;
    if running == {} {
      SumEmpty(scratch);
    } else {
      var i :| i in running;
      forall j | j in running ensures j == i {
        if Prior(starts, durations, j, i) {
          SerialSeparates(starts, durations, late, j, i);
        } else if Prior(starts, durations, i, j) {
          SerialSeparates(starts, durations, late, i, j);
        }
      }
      assert running == {i};
      SumSingle(scratch, i);
    }
  }

  // ---------------------------------------------------------------- without a deadline

  /** The hypotheses on a scenario without deadline: no negative quantity. */
  ghost predicate Open(sc: Scenario, selection: seq<int>)
  {
    && Indexed(sc, selection) && sc.deadline.None? && sc.capacity >= 0
    && NonNegative(Durations(sc, selection)) && NonNegative(Scratch(sc, selection))
  }

  function Oversize(sc: Scenario, selection: seq<int>): set<int>
    requires Indexed(sc, selection)
  {
    set i | 0 <= i < |selection| && Oversized(sc, selection, i)
  }

  /** Every order of the tasks yields an accepted candidate once no oversized task has a successor. */
  lemma SerialAccepted(sc: Scenario, selection: seq<int>, starts: seq<int>)
    requires Open(sc, selection) && |starts| == |selection|
    requires MeetsPrecedence(sc.before, starts, Durations(sc, selection))
    requires forall i :: i in Oversize(sc, selection) ==> !HasSuccessor(sc, i)
    ensures var serial := Serial(starts, Durations(sc, selection), Oversize(sc, selection));
            serial in Candidates(sc, selection) && Accepts(sc, selection, serial)
  {
    var durations, late := Durations(sc, selection), Oversize(sc, selection);
    var serial := Serial(starts, durations, late);
    SumMonotone(durations, {}, {});
    SumEmpty(durations);
    forall i | 0 <= i < |serial| ensures 0 <= serial[i] <= Horizon(sc, selection) {
      if i !in late {
        SerialBounds(starts, durations, late, i);
      }
    }
    CandidateMembers(sc, selection, serial);
    SerialMeetsPrecedence(sc, selection, starts, late);
    forall time | 0 <= time < Horizon(sc, selection)
      ensures SumOver(Scratch(sc, selection), Running(serial, durations, time)) <= sc.capacity
    {
      SerialMeetsCapacity(sc, selection, starts, late, time);
    }
  }

  /** An accepted candidate starts every oversized task at the horizon, where nothing can follow it. */
  lemma AcceptedRespectsOversize(sc: Scenario, selection: seq<int>, starts: seq<int>, i: int)
    requires Open(sc, selection) && starts in Candidates(sc, selection) && |starts| == |selection|
    requires Accepts(sc, selection, starts) && i in Oversize(sc, selection)
    ensures !HasSuccessor(sc, i)
  {
    var durations, scratch := Durations(sc, selection), Scratch(sc, selection);
    CandidateMembers(sc, selection, starts);
    if starts[i] < Horizon(sc, selection) {
      assert i in Running(starts, durations, starts[i]);
      SumAtLeast(scratch, Running(starts, durations, starts[i]), i);
    }
    if edge :| edge in sc.before && edge.0 == i {
      assert false;
    }
  }

  /** Without a deadline the search reports a schedule exactly when the tasks can be ordered and no
      oversized task has a successor. */
  lemma OpenSearchFinds(sc: Scenario, selection: seq<int>)
    requires Open(sc, selection)
    ensures Oracle(sc, selection).feasible
       <==> Orderable(sc, selection) && forall i :: i in Oversize(sc, selection) ==> !HasSuccessor(sc, i)
  {
    var candidates := Candidates(sc, selection);
    forall c | c in candidates ensures |c| == |selection| && NonNegative(c) {
      CandidateMembers(sc, selection, c);
    }
    var best := FirstBest(sc, selection, candidates);
    if best.Some? {
      assert Orderable(sc, selection);
      forall i | i in Oversize(sc, selection) ensures !HasSuccessor(sc, i) {
        AcceptedRespectsOversize(sc, selection, best.value, i);
      }
    }
    if Orderable(sc, selection) && forall i :: i in Oversize(sc, selection) ==> !HasSuccessor(sc, i) {
      var starts :| |starts| == |selection| && NonNegative(starts)
                    && MeetsPrecedence(sc.before, starts, Durations(sc, selection));
      SerialAccepted(sc, selection, starts);
    }
  }

  lemma FeasibleFits(sc: Scenario, selection: seq<int>, starts: seq<int>)
    requires Open(sc, selection) && Feasible(sc, selection, starts)
    ensures Orderable(sc, selection) && Oversize(sc, selection) == {}
  {
    FeasibleMeans(sc, selection, starts);
    var durations, scratch := Durations(sc, selection), Scratch(sc, selection);
    if i :| i in Oversize(sc, selection) {
      assert i in Running(starts, durations, starts[i]);
      SumAtLeast(scratch, Running(starts, durations, starts[i]), i);
      assert false;
    }
  }

  /** When the tasks can be ordered and fit one by one, running them in turn is feasible within the horizon. */
  lemma SerialFeasible(sc: Scenario, selection: seq<int>) returns (serial: seq<int>)
    requires Open(sc, selection) && Orderable(sc, selection) && Oversize(sc, selection) == {}
    ensures AlwaysAccepted(sc, selection, serial)
    ensures serial in Candidates(sc, selection) && Accepts(sc, selection, serial)
    ensures Makespan(serial, Durations(sc, selection)) <= Horizon(sc, selection)
  {
    var starts :| |starts| == |selection| && NonNegative(starts)
                  && MeetsPrecedence(sc.before, starts, Durations(sc, selection));
    var durations := Durations(sc, selection);
    serial := Serial(starts, durations, {});
    SerialAccepted(sc, selection, starts);
    CandidateMembers(sc, selection, serial);
    forall time: int ensures SumOver(Scratch(sc, selection), Running(serial, durations, time)) <= sc.capacity {
      SerialMeetsCapacity(sc, selection, starts, {}, time);
    }
    SumMonotone(durations, {}, {});
    SumEmpty(durations);
    forall i | 0 <= i < |serial| ensures serial[i] + durations[i] <= Horizon(sc, selection) {
      SerialBounds(starts, durations, {}, i);
    }
  }

  /** A candidate that ends within the horizon and passes the bounded tests is feasible outright. */
  lemma AcceptedWithinHorizon(sc: Scenario, selection: seq<int>, starts: seq<int>)
    requires Open(sc, selection) && starts in Candidates(sc, selection) && |starts| == |selection|
    requires Accepts(sc, selection, starts) && Makespan(starts, Durations(sc, selection)) <= Horizon(sc, selection)
    ensures AlwaysAccepted(sc, selection, starts)
  {
    CandidateMembers(sc, selection, starts);
    var durations, scratch := Durations(sc, selection), Scratch(sc, selection);
    forall time: int ensures SumOver(scratch, Running(starts, durations, time)) <= sc.capacity {
      if !(0 <= time < Horizon(sc, selection)) {
        forall i | 0 <= i < |starts| ensures starts[i] + durations[i] <= Horizon(sc, selection) {
          assert Ends(starts, durations)[i] == starts[i] + durations[i];
        }
        assert Running(starts, durations, time) == {};
        SumEmpty(scratch);
      }
    }
  }

  /** When no task that takes time precedes itself and every task fits alone, the sum of durations bounds the
      search without losing the optimum. */
  lemma HorizonSuffices(sc: Scenario, selection: seq<int>)
    requires Open(sc, selection) && IdleCycles(sc, selection) && Oversize(sc, selection) == {}
    ensures Exact(sc, selection, Oracle(sc, selection))
  {
    var durations := Durations(sc, selection);
    var candidates := Candidates(sc, selection);
    forall c | c in candidates ensures |c| == |selection| {
      CandidateMembers(sc, selection, c);
    }
    OrderableExactly(sc, selection);
    var serial := SerialFeasible(sc, selection);
    var best := FirstBest(sc, selection, candidates);
    AcceptedWithinHorizon(sc, selection, best.value);
    forall starts | AlwaysAccepted(sc, selection, starts) && Makespan(starts, durations) <= Makespan(best.value, durations)
      ensures starts in candidates && Accepts(sc, selection, starts)
    {
      if Makespan(starts, durations) <= Horizon(sc, selection) {
        forall i | 0 <= i < |starts| ensures starts[i] <= Horizon(sc, selection) {
          assert durations[i] >= 0;
          assert Ends(starts, durations)[i] <= Makespan(starts, durations);
        }
        CandidateMembers(sc, selection, starts);
        assert Accepts(sc, selection, starts);
      }
    }
    AnswerIsExact(sc, selection);
  }

  /** What makes the answer without a deadline the truth: some task that takes time precedes itself, or all
      tasks fit alone, or one that does not has a successor. */
  ghost predicate OpenIsTrue(sc: Scenario, selection: seq<int>)
    requires Indexed(sc, selection)
  {
    || !IdleCycles(sc, selection)
    || Oversize(sc, selection) == {}
    || exists i :: i in Oversize(sc, selection) && HasSuccessor(sc, i)
  }

  /**
   * Exactly when the answer without a deadline is the truth. It fails when the tasks can be ordered,
   * some task is oversized and no oversized task has a successor: such tasks hide behind the horizon,
   * where capacity is not checked, and the search reports a schedule that does not exist.
   */
  lemma OpenExactCondition(sc: Scenario, selection: seq<int>)
    requires Open(sc, selection)
    ensures Exact(sc, selection, Oracle(sc, selection)) <==> OpenIsTrue(sc, selection)
  {
    OpenSearchFinds(sc, selection);
    OrderableExactly(sc, selection);
    if IdleCycles(sc, selection) && Oversize(sc, selection) == {} {
      HorizonSuffices(sc, selection);
    } else {
      forall starts | Feasible(sc, selection, starts) ensures false {
        FeasibleFits(sc, selection, starts);
      }
    }
  }

  /** Acyclic precedence can always be ordered, whatever the durations. */
  lemma AcyclicIsIdle(sc: Scenario, selection: seq<int>)
    requires Indexed(sc, selection) && AcyclicPrecedence(sc.before)
    ensures IdleCycles(sc, selection)
  {
  }

  /** The failing family has members: one task too big for the store is reported as schedulable. */
  lemma OversizedTaskIsReportedFeasible()
    ensures var sc := Scenario([[Alternative("big", 1, 2)]], [], 1, None);
            Indexed(sc, [0]) && Oracle(sc, [0]).feasible && !exists starts :: Feasible(sc, [0], starts)
  {
    var sc := Scenario([[Alternative("big", 1, 2)]], [], 1, None);
    assert Durations(sc, [0])[0] == 1 && Scratch(sc, [0])[0] == 2;
    assert Open(sc, [0]);
    assert MeetsPrecedence(sc.before, [0], Durations(sc, [0])) && NonNegative([0]);
    assert Orderable(sc, [0]);
    OpenSearchFinds(sc, [0]);
    assert 0 in Oversize(sc, [0]);
    forall starts | Feasible(sc, [0], starts) ensures false {
      FeasibleFits(sc, [0], starts);
    }
  }

  // ---------------------------------------------------------------- over all selections

  /** The local policy's pick is one of the selections that were searched, so the joint optimum is no worse. */
  lemma NeverLosesToLocal(sc: Scenario, selection: Option<seq<int>>, schedule: Option<Schedule>)
    requires EdgesIndexed(sc) && IsOptimum(sc, selection, schedule)
    ensures forall local :: LocalSelection(sc) == Some(local) ==>
              && Indexed(sc, local)
              && (Oracle(sc, local).feasible ==>
                    && schedule.Some? && schedule.value.makespan.Some?
                    && schedule.value.makespan.value <= Oracle(sc, local).makespan.value)
  {
  }

  /** The selection and its schedule are feasible, and nothing feasible ends earlier: the optimum over all
      selections and all start times at once. Among what ends then, the selection and after it the starts are first. */
  ghost predicate GloballyOptimal(sc: Scenario, selection: Option<seq<int>>, schedule: Option<Schedule>)
  {
    && (schedule.Some? <==> exists s, starts :: Indexed(sc, s) && Feasible(sc, s, starts))
    && (schedule.Some? ==>
          && selection.Some? && Indexed(sc, selection.value)
          && Feasible(sc, selection.value, schedule.value.starts)
          && schedule.value.makespan.Some?
          && EndsAt(sc, selection.value, schedule.value.starts, schedule.value.makespan.value)
          && forall s, starts, end :: Indexed(sc, s) && Feasible(sc, s, starts) && EndsAt(sc, s, starts, end) ==>
               NotBeaten(selection.value, schedule.value, s, starts, end))
  }

  /** What ends at `end` ends later than the schedule, or comes after it in the order of the search. */
  predicate NotBeaten(selection: seq<int>, schedule: Schedule, s: seq<int>, starts: seq<int>, end: int)
    requires schedule.makespan.Some?
  {
    || schedule.makespan.value < end
    || (schedule.makespan.value == end
        && (LexBelow(selection, s) || (s == selection && (starts == schedule.starts || LexBelow(schedule.starts, starts)))))
  }

  lemma OptimumIsGlobal(sc: Scenario, selection: Option<seq<int>>, schedule: Option<Schedule>)
    requires EdgesIndexed(sc) && IsOptimum(sc, selection, schedule)
    requires forall s :: Indexed(sc, s) ==> Exact(sc, s, Oracle(sc, s))
    ensures GloballyOptimal(sc, selection, schedule)
  {
    forall s, starts | Indexed(sc, s) && Feasible(sc, s, starts) ensures schedule.Some? {
      assert Exact(sc, s, Oracle(sc, s));
    }
    forall s, starts, end | Indexed(sc, s) && Feasible(sc, s, starts) && EndsAt(sc, s, starts, end)
      ensures NotBeaten(selection.value, schedule.value, s, starts, end)
    {
      assert Exact(sc, s, Oracle(sc, s));
    }
    if schedule.Some? {
      assert Exact(sc, selection.value, Oracle(sc, selection.value));
    }
  }

  /** No option has a negative duration. */
  predicate DurationsSensible(sc: Scenario)
  {
    forall i, k :: 0 <= i < |sc.alternatives| && 0 <= k < |sc.alternatives[i]| ==> sc.alternatives[i][k].duration >= 0
  }

  predicate ScratchSensible(sc: Scenario)
  {
    forall i, k :: 0 <= i < |sc.alternatives| && 0 <= k < |sc.alternatives[i]| ==> sc.alternatives[i][k].scratch >= 0
  }

  /** With a deadline `enumerate_optimum` finds the optimum over all selections and all start times. */
  lemma GlobalOptimum(sc: Scenario, selection: Option<seq<int>>, schedule: Option<Schedule>)
    requires EdgesIndexed(sc) && sc.deadline.Some? && sc.capacity >= 0 && DurationsSensible(sc)
    requires IsOptimum(sc, selection, schedule)
    ensures GloballyOptimal(sc, selection, schedule)
  {
    forall s | Indexed(sc, s) ensures Exact(sc, s, Oracle(sc, s)) {
      DeadlineExact(sc, s);
    }
    OptimumIsGlobal(sc, selection, schedule);
  }

  /** Without a deadline it does so when the single answers are the truth, as `OpenExactCondition` has it. */
  lemma OpenGlobalOptimum(sc: Scenario, selection: Option<seq<int>>, schedule: Option<Schedule>)
    requires EdgesIndexed(sc) && sc.deadline.None? && sc.capacity >= 0 && DurationsSensible(sc) && ScratchSensible(sc)
    requires forall s :: Indexed(sc, s) ==> OpenIsTrue(sc, s)
    requires IsOptimum(sc, selection, schedule)
    ensures GloballyOptimal(sc, selection, schedule)
  {
    forall s | Indexed(sc, s) ensures Exact(sc, s, Oracle(sc, s)) {
      assert Open(sc, s);
      OpenExactCondition(sc, s);
    }
    OptimumIsGlobal(sc, selection, schedule);
  }

  /** In particular when precedence is acyclic and every option fits alone. */
  lemma AcyclicGlobalOptimum(sc: Scenario, selection: Option<seq<int>>, schedule: Option<Schedule>)
    requires EdgesIndexed(sc) && sc.deadline.None? && sc.capacity >= 0 && DurationsSensible(sc) && ScratchSensible(sc)
    requires AcyclicPrecedence(sc.before)
    requires forall i, k :: 0 <= i < |sc.alternatives| && 0 <= k < |sc.alternatives[i]| ==> sc.alternatives[i][k].scratch <= sc.capacity
    requires IsOptimum(sc, selection, schedule)
    ensures GloballyOptimal(sc, selection, schedule)
  {
    forall s | Indexed(sc, s) ensures OpenIsTrue(sc, s) {
      AcyclicIsIdle(sc, s);
      assert forall i :: 0 <= i < |s| ==> Scratch(sc, s)[i] <= sc.capacity;
      assert Oversize(sc, s) == {};
    }
    OpenGlobalOptimum(sc, selection, schedule);
  }
}

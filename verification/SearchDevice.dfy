/** The device buffers of the batch search and the kernels that update them.  A dispatch runs
    its threads in any order; every thread touches the entries of its own slot only. */
module SearchDevice {
  import opened Common
  import opened Inputs
  import opened SearchSamples
  import opened SearchSelection
  import opened SearchTicks
  import opened SearchMeaning
  import opened ScriptedMerge

  /** An order in which the threads of one dispatch over all candidates may run; threads beyond
      the candidate count return at once. */
  ghost predicate CoversOnce(order: seq<nat>, candidateCount: nat) {
    && (forall i, j :: 0 <= i < j < |order| ==> order[i] != order[j])
    && (forall slot :: 0 <= slot < candidateCount ==> slot in order)
  }

  /** The thread orders of the three dispatches of a tick. */
  datatype StageOrders = StageOrders(prepare: seq<nat>, physics: seq<nat>, evaluate: seq<nat>)
  {
    ghost predicate Covers(candidateCount: nat) {
      && CoversOnce(prepare, candidateCount)
      && CoversOnce(physics, candidateCount)
      && CoversOnce(evaluate, candidateCount)
    }
  }

  datatype Summary = Summary(
    status: nat,
    winner: Sample,
    winnerSlot: Option<nat>,
    winnerEventCount: nat,
    winnerMutationCount: nat,
    evaluatedCandidateCount: nat,
    totalMutationCount: nat,
    mutationImprovementCount: nat,
    bestChanged: bool)

  /** The batch status: the last slot with a failure status decides. */
  function BatchStatus(statuses: seq<nat>): nat {
    if statuses == [] then 0
    else
      var last := statuses[|statuses| - 1];
      if last == 2 then 4 else if last == 1 then 3 else if last == 4 then 6
      else BatchStatus(statuses[..|statuses| - 1])
  }

  function CountTrue(flags: seq<bool>): nat {
    if flags == [] then 0
    else CountTrue(flags[..|flags| - 1]) + if flags[|flags| - 1] then 1 else 0
  }

  function Total(counts: seq<nat>): nat {
    if counts == [] then 0 else Total(counts[..|counts| - 1]) + counts[|counts| - 1]
  }

  predicate Failed(status: nat) {
    status == 1 || status == 2 || status == 4
  }

  /** The last slot that failed decides: 2 is reported as 4, 1 as 3, 4 as 6. */
  lemma {:induction false} LastFailureDecides(statuses: seq<nat>)
    ensures BatchStatus(statuses) == 0 <==> forall i :: 0 <= i < |statuses| ==> !Failed(statuses[i])
    ensures BatchStatus(statuses) != 0 ==>
              exists i :: LastFailure(statuses, i) &&
                BatchStatus(statuses) == if statuses[i] == 2 then 4 else if statuses[i] == 1 then 3 else 6
  {
    if statuses != [] {
      var k := |statuses| - 1;
      LastFailureDecides(statuses[..k]);
      if Failed(statuses[k]) {
        assert LastFailure(statuses, k);
      } else if BatchStatus(statuses) != 0 {
        var i :| LastFailure(statuses[..k], i) && BatchStatus(statuses[..k]) ==
                 if statuses[..k][i] == 2 then 4 else if statuses[..k][i] == 1 then 3 else 6;
        assert forall j :: i < j < k ==> statuses[j] == statuses[..k][j];
        assert LastFailure(statuses, i);
      }
    }
  }

  ghost predicate LastFailure(statuses: seq<nat>, i: int) {
    0 <= i < |statuses| && Failed(statuses[i]) && forall j :: i < j < |statuses| ==> !Failed(statuses[j])
  }

  lemma {:induction false} CountOfTrue(flags: seq<bool>)
    ensures CountTrue(flags) == |set i | 0 <= i < |flags| && flags[i]|
  {
    var all := set i | 0 <= i < |flags| && flags[i];
    if flags != [] {
      var k := |flags| - 1;
      CountOfTrue(flags[..k]);
      var before := set i | 0 <= i < k && flags[..k][i];
      assert all == before + if flags[k] then {k} else {};
    } else {
      assert all == {};
    }
  }

  /** The total is the sum: of one count, and of two lists. */
  lemma {:induction false} TotalIsSum(a: seq<nat>, b: seq<nat>, x: nat)
    ensures Total([x]) == x && Total(a + b) == Total(a) + Total(b)
  {
    assert [x][..0] == [];
    if b == [] {
      assert a + b == a;
    } else {
      TotalIsSum(a, b[..|b| - 1], x);
      assert (a + b)[..|a + b| - 1] == a + b[..|b| - 1];
    }
  }

  /** How often a scan replaces its incumbent. */
  ghost function Improvements(order: Order, incumbent: Sample, samples: seq<Sample>): nat {
    if samples == [] then 0
    else
      var k := |samples| - 1;
      Improvements(order, incumbent, samples[..k]) +
      if Better(order, samples[k], Scan(order, incumbent, samples[..k])) then 1 else 0
  }

  /** Sample k beats what the scan of the samples before it has kept. */
  ghost predicate Replaces(order: Order, incumbent: Sample, samples: seq<Sample>, k: nat)
    requires k < |samples|
  {
    Better(order, samples[k], Scan(order, incumbent, samples[..k]))
  }

  ghost function Replacing(order: Order, incumbent: Sample, samples: seq<Sample>, n: nat): set<nat>
    requires n <= |samples|
  {
    set k | 0 <= k < n && Replaces(order, incumbent, samples, k)
  }

  lemma {:induction false} ReplacingNext(order: Order, incumbent: Sample, samples: seq<Sample>, k: nat)
    requires k < |samples|
    ensures |Replacing(order, incumbent, samples, 0)| == 0
    ensures |Replacing(order, incumbent, samples, k + 1)| ==
            |Replacing(order, incumbent, samples, k)| + if Replaces(order, incumbent, samples, k) then 1 else 0
  {
    assert Replacing(order, incumbent, samples, 0) == {};
    var before, beats := Replacing(order, incumbent, samples, k), Replaces(order, incumbent, samples, k);
    assert Replacing(order, incumbent, samples, k + 1) == before + if beats then {k} else {};
  }

  lemma {:induction false} ImprovementsUpTo(order: Order, incumbent: Sample, samples: seq<Sample>, n: nat)
    requires n <= |samples|
    ensures Improvements(order, incumbent, samples[..n]) == |Replacing(order, incumbent, samples, n)|
  {
    if n == 0 {
      assert Replacing(order, incumbent, samples, 0) == {};
    } else {
      ImprovementsUpTo(order, incumbent, samples, n - 1);
      ReplacingNext(order, incumbent, samples, n - 1);
      assert samples[..n][..n - 1] == samples[..n - 1];
    }
  }

  /** The count is the number of samples that replace the scan's incumbent. */
  lemma {:induction false} ImprovementsAre(order: Order, incumbent: Sample, samples: seq<Sample>)
    ensures Improvements(order, incumbent, samples) == |Replacing(order, incumbent, samples, |samples|)|
  {
    ImprovementsUpTo(order, incumbent, samples, |samples|);
    assert samples[..|samples|] == samples;
  }

  /** A scan that improved at all ended with a sample that beats the original incumbent, in a scripted search
      if no objective is NaN; otherwise it ended with the incumbent. */
  lemma {:induction false} ImprovedWinnerBeats(order: Order, incumbent: Sample, samples: seq<Sample>)
    ensures Improvements(order, incumbent, samples) > 0 && Ranked(order, incumbent) && AllRanked(order, samples) ==>
              Better(order, Scan(order, incumbent, samples), incumbent)
    ensures Improvements(order, incumbent, samples) == 0 ==> Scan(order, incumbent, samples) == incumbent
  {
    if samples != [] {
      var k := |samples| - 1;
      ImprovedWinnerBeats(order, incumbent, samples[..k]);
      if Ranked(order, incumbent) && AllRanked(order, samples) {
        ScanStaysRanked(order, incumbent, samples[..k]);
        BetterIsStrictPartialOrder(order, samples[k], Scan(order, incumbent, samples[..k]), incumbent);
      }
    }
  }

  lemma {:induction false} ImprovedWinnerIsValid(incumbent: Sample, samples: seq<Sample>)
    ensures Improvements(Scripted, incumbent, samples) > 0 ==> Scan(Scripted, incumbent, samples).valid
  {
    if samples != [] {
      ImprovedWinnerIsValid(incumbent, samples[..|samples| - 1]);
    }
  }

  function OrderOf(kind: Kind): Order {
    if kind.ScriptedKind? then Scripted else Scalar(MaximizesScore(kind))
  }

  method DecideBetter(kind: Kind, candidate: Sample, incumbent: Sample) returns (better: bool)
    ensures better <==> Better(OrderOf(kind), candidate, incumbent)
  {
    if kind.ScriptedKind? {
      better := ScriptedBetter(candidate, incumbent);
    } else {
      better := StrictlyBetter(candidate, incumbent, MaximizesScore(kind));
    }
  }

  /** What a batch search reports about its winner: the best is changed exactly if a slot won, and then slot,
      counts and events are those of the winner. */
  ghost predicate Reports(incumbent: Sample, bests: seq<Sample>, events: seq<seq<Event>>,
                          mutationCounts: seq<nat>, summary: Summary, winnerEvents: seq<Event>)
    requires |bests| == |events| == |mutationCounts|
  {
    match summary.winnerSlot
    case None => summary.winner == incumbent && !summary.bestChanged && winnerEvents == []
    case Some(slot) =>
      && slot < |bests| && summary.winner == bests[slot] && summary.bestChanged
      && winnerEvents == events[slot] && summary.winnerEventCount == |events[slot]|
      && summary.winnerMutationCount == mutationCounts[slot]
  }

  class Device {
    const parameters: Parameters
    const events: seq<seq<Event>>
    const activeCandidates: seq<bool>
    const mutationCounts: seq<nat>
    const statuses: seq<nat>
    const states: array<VehicleState>
    const controls: array<ControlState>
    const cursors: array<nat>
    const simulationActive: array<bool>
    const reported: array<bool>
    const evaluationIndices: array<nat>
    const samples: array<Sample>
    const previousPositions: array<Vec3>
    const candidateTicks: array<Tick>
    const winnerEvents: array<Event>
    var summary: Summary

    ghost predicate Valid() {
      var n := parameters.candidateCount;
      && parameters.Valid()
      && |events| == |activeCandidates| == |mutationCounts| == |statuses| == n
      && states.Length == controls.Length == cursors.Length == simulationActive.Length == n
      && reported.Length == evaluationIndices.Length == previousPositions.Length == candidateTicks.Length == n
      && samples.Length == n + 1
      && cursors != evaluationIndices
      && simulationActive != reported
      && (forall slot :: 0 <= slot < n ==> |events[slot]| <= winnerEvents.Length)
    }

    ghost function Buffers(): set<object> {
      {states as object, controls as object, cursors as object, simulationActive as object, reported as object,
       evaluationIndices as object, samples as object, previousPositions as object, candidateTicks as object}
    }

    ghost function LaneAt(slot: nat): Lane
      requires Valid() && slot < parameters.candidateCount
      reads Buffers()
    {
      Lane(Candidate(states[slot], controls[slot], cursors[slot], simulationActive[slot], reported[slot],
                     evaluationIndices[slot], samples[slot + 1]),
           previousPositions[slot], candidateTicks[slot])
    }

    /** InitializeVulkanSearchCandidates over all slots. */
    constructor (parameters: Parameters, events: seq<seq<Event>>, activeCandidates: seq<bool>,
                 mutationCounts: seq<nat>, statuses: seq<nat>, branchState: VehicleState,
                 boundary: ControlState, incumbent: Sample, eventCapacity: nat)
      requires parameters.Valid()
      requires |events| == |activeCandidates| == |mutationCounts| == |statuses| == parameters.candidateCount
      requires forall slot :: 0 <= slot < |events| ==> |events[slot]| <= eventCapacity
      ensures Valid() && fresh(Buffers()) && fresh(winnerEvents)
      ensures this.parameters == parameters && this.events == events && this.mutationCounts == mutationCounts
      ensures this.activeCandidates == activeCandidates && this.statuses == statuses && samples[0] == incumbent
      ensures forall slot :: 0 <= slot < parameters.candidateCount ==>
                LaneAt(slot).candidate ==
                InitialCandidate(parameters, slot, branchState, boundary, activeCandidates[slot])
    {
      var n := parameters.candidateCount;
      this.parameters, this.events, this.activeCandidates := parameters, events, activeCandidates;
      this.mutationCounts, this.statuses := mutationCounts, statuses;
      states := new VehicleState[n](slot requires 0 <= slot < n => InitialState(parameters, slot, branchState));
      controls := new ControlState[n](_ => boundary);
      cursors := new nat[n](_ => 0);
      simulationActive := new bool[n](slot requires 0 <= slot < n == |activeCandidates| => activeCandidates[slot]);
      reported := new bool[n](_ => false);
      evaluationIndices := new nat[n](_ => 0);
      samples := new Sample[n + 1](i => if i == 0 then incumbent else EMPTY_SAMPLE);
      previousPositions := new Vec3[n](_ => Vec3(Num(0.0), Num(0.0), Num(0.0)));
      candidateTicks := new Tick[n](_ => Tick(false, [], [], []));
      winnerEvents := new Event[eventCapacity](_ => Event(0, 0, 0, 0));
      summary := Summary(0, EMPTY_SAMPLE, None, 0, 0, 0, 0, 0, false);
    }

    // ----- Threads of the staged pipeline

    /** The event loop of a prepare thread, on the slot's own control state. */
    method ApplyDueEvents(slot: nat, suffixTime: int) returns (cursor: nat)
      requires Valid() && slot < parameters.candidateCount
      modifies controls
      ensures (cursor, controls[slot]) ==
              ApplyDue(parameters, events[slot], suffixTime, cursors[slot], old(controls[slot]))
      ensures forall s :: 0 <= s < controls.Length && s != slot ==> controls[s] == old(controls[s])
    {
      cursor := cursors[slot];
      while cursor < |events[slot]| && events[slot][cursor].timeMs <= suffixTime
        invariant ApplyDue(parameters, events[slot], suffixTime, cursor, controls[slot]) ==
                  ApplyDue(parameters, events[slot], suffixTime, cursors[slot], old(controls[slot]))
        invariant forall s :: 0 <= s < controls.Length && s != slot ==> controls[s] == old(controls[s])
      {
        controls[slot] := parameters.applyEvent(controls[slot], events[slot][cursor], parameters.mutableFromTimeMs);
        cursor := cursor + 1;
      }
    }

    /** One thread of PrepareVulkanSearchTick. */
    method PrepareThread(slot: nat, tickIndex: nat)
      requires Valid() && slot < parameters.candidateCount && tickIndex < parameters.timelineTickCount
      modifies controls, cursors, candidateTicks, previousPositions
      ensures LaneAt(slot) == PrepareLane(parameters, events[slot], tickIndex, old(LaneAt(slot)))
      ensures forall s :: 0 <= s < parameters.candidateCount && s != slot ==> LaneAt(s) == old(LaneAt(s))
    {
      if !simulationActive[slot] {
        return;
      }
      var publicTime := parameters.branchTimeMs + (tickIndex + 1) * parameters.tickDurationMs;
      var cursor := ApplyDueEvents(slot, publicTime - parameters.mutableFromTimeMs);
      cursors[slot] := cursor;
      candidateTicks[slot] := parameters.baselineTicks[tickIndex].(
        observe := false,
        controls := parameters.controlsFrom(controls[slot]),
        stuntsInput := parameters.stuntsFrom(controls[slot], parameters.prestartDurationMs));
      previousPositions[slot] := states[slot].position;
    }

    /** One thread of ExecuteVulkanSearchPhysics. */
    method PhysicsThread(slot: nat)
      requires Valid() && slot < parameters.candidateCount
      modifies states
      ensures LaneAt(slot) == PhysicsLane(parameters, old(LaneAt(slot)))
      ensures forall s :: 0 <= s < parameters.candidateCount && s != slot ==> LaneAt(s) == old(LaneAt(s))
    {
      if simulationActive[slot] {
        states[slot] := parameters.advance(states[slot], candidateTicks[slot]);
      }
    }

    /** The evaluator part of EvaluateVulkanSearchTick, reached by non-scripted searches. */
    method ScoreState(slot: nat, tickIndex: nat, evaluationIndex: nat)
      requires Valid() && slot < parameters.candidateCount && tickIndex < parameters.timelineTickCount
      modifies simulationActive, reported, samples
      ensures samples[0] == old(samples[0])
      ensures forall s :: 0 <= s < parameters.candidateCount && s != slot ==> LaneAt(s) == old(LaneAt(s))
      ensures var lane, c := old(LaneAt(slot)), old(LaneAt(slot)).candidate;
              var time := parameters.PublicTime(tickIndex);
              var scored := parameters.evaluate(c.state, lane.previousPosition, time - parameters.tickDurationMs,
                                                time, c.reported);
              var sample := parameters.Stamp(slot, |events[slot]|, evaluationIndex, scored.0);
              var best := if StrictlyBetter(sample, c.best, MaximizesScore(parameters.kind)) then sample else c.best;
              var stops := StopsWhenReported(parameters.kind) && scored.1;
              var prunes := !stops && parameters.Prunes(samples[0], tickIndex);
              LaneAt(slot) == lane.(candidate := c.(reported := scored.1,
                                                    active := c.active && !stops && !prunes,
                                                    best := if prunes then EMPTY_SAMPLE else best))
    {
      var publicTime := parameters.PublicTime(tickIndex);
      var (raw, evaluatorReported) := parameters.evaluate(
        states[slot], previousPositions[slot], publicTime - parameters.tickDurationMs, publicTime, reported[slot]);
      reported[slot] := evaluatorReported;
      var sample := parameters.Stamp(slot, |events[slot]|, evaluationIndex, raw);
      if StrictlyBetter(sample, samples[slot + 1], MaximizesScore(parameters.kind)) {
        samples[slot + 1] := sample;
      }
      if StopsWhenReported(parameters.kind) && evaluatorReported {
        simulationActive[slot] := false;
        return;
      }
      if parameters.Prunes(samples[0], tickIndex) {
        samples[slot + 1] := EMPTY_SAMPLE;
        simulationActive[slot] := false;
      }
    }

    /** The scripted part of EvaluateVulkanSearchTick. */
    method MergeObjectives(slot: nat, tickIndex: nat, evaluationIndex: nat)
      requires Valid() && slot < parameters.candidateCount && tickIndex < parameters.timelineTickCount
      modifies samples
      ensures forall i :: 0 <= i < samples.Length && i != slot + 1 ==> samples[i] == old(samples[i])
      ensures samples[slot + 1] ==
              match parameters.UpdateScripted(states[slot], slot, parameters.PublicTime(tickIndex),
                                              old(samples[slot + 1]))
              case None => old(samples[slot + 1])
              case Some(sample) => parameters.Stamp(slot, |events[slot]|, evaluationIndex, sample)
    {
      var updated, sample := UpdateScriptedSample(
        parameters.goals, parameters.expression(states[slot], parameters.Iteration(slot)),
        parameters.PublicTime(tickIndex), samples[slot + 1]);
      if updated {
        samples[slot + 1] := parameters.Stamp(slot, |events[slot]|, evaluationIndex, sample);
      }
    }

    /** One thread of EvaluateVulkanSearchTick. */
    method EvaluateThread(slot: nat, tickIndex: nat)
      requires Valid() && slot < parameters.candidateCount && tickIndex < parameters.timelineTickCount
      modifies simulationActive, reported, evaluationIndices, samples
      ensures samples[0] == old(samples[0])
      ensures LaneAt(slot) == EvaluateLane(parameters, slot, events[slot], samples[0], tickIndex, old(LaneAt(slot)))
      ensures forall s :: 0 <= s < parameters.candidateCount && s != slot ==> LaneAt(s) == old(LaneAt(s))
    {
      if !simulationActive[slot] {
        return;
      }
      var publicTime := parameters.PublicTime(tickIndex);
      if publicTime < parameters.evaluationStartTimeMs {
        return;
      }
      var evaluationIndex := evaluationIndices[slot];
      evaluationIndices[slot] := evaluationIndex + 1;
      if parameters.hasCondition && !parameters.condition(states[slot], parameters.Iteration(slot)) {
        if states[slot].raceCompleted {
          simulationActive[slot] := false;
        }
        return;
      }
      if parameters.kind.ScriptedKind? {
        MergeObjectives(slot, tickIndex, evaluationIndex);
        return;
      }
      ScoreState(slot, tickIndex, evaluationIndex);
    }

    // ----- Staged dispatches

    method DispatchPrepare(order: seq<nat>, tickIndex: nat)
      requires Valid() && CoversOnce(order, parameters.candidateCount) && tickIndex < parameters.timelineTickCount
      modifies controls, cursors, candidateTicks, previousPositions
      ensures forall slot :: 0 <= slot < parameters.candidateCount ==>
                LaneAt(slot) == PrepareLane(parameters, events[slot], tickIndex, old(LaneAt(slot)))
    {
      for k := 0 to |order|
        invariant forall slot :: 0 <= slot < parameters.candidateCount ==>
                    LaneAt(slot) == if slot in order[..k]
                                    then PrepareLane(parameters, events[slot], tickIndex, old(LaneAt(slot)))
                                    else old(LaneAt(slot))
      {
        assert order[..k + 1] == order[..k] + [order[k]];
        if order[k] < parameters.candidateCount {
          PrepareThread(order[k], tickIndex);
        }
      }
      assert order[..|order|] == order;
    }

    method DispatchPhysics(order: seq<nat>)
      requires Valid() && CoversOnce(order, parameters.candidateCount)
      modifies states
      ensures forall slot :: 0 <= slot < parameters.candidateCount ==>
                LaneAt(slot) == PhysicsLane(parameters, old(LaneAt(slot)))
    {
      for k := 0 to |order|
        invariant forall slot :: 0 <= slot < parameters.candidateCount ==>
                    LaneAt(slot) == if slot in order[..k]
                                    then PhysicsLane(parameters, old(LaneAt(slot)))
                                    else old(LaneAt(slot))
      {
        assert order[..k + 1] == order[..k] + [order[k]];
        if order[k] < parameters.candidateCount {
          PhysicsThread(order[k]);
        }
      }
      assert order[..|order|] == order;
    }

    method DispatchEvaluate(order: seq<nat>, tickIndex: nat)
      requires Valid() && CoversOnce(order, parameters.candidateCount) && tickIndex < parameters.timelineTickCount
      modifies simulationActive, reported, evaluationIndices, samples
      ensures samples[0] == old(samples[0])
      ensures forall slot :: 0 <= slot < parameters.candidateCount ==>
                LaneAt(slot) == EvaluateLane(parameters, slot, events[slot], samples[0], tickIndex, old(LaneAt(slot)))
    {
      for k := 0 to |order|
        invariant samples[0] == old(samples[0])
        invariant forall slot :: 0 <= slot < parameters.candidateCount ==>
                    LaneAt(slot) == if slot in order[..k]
                                    then EvaluateLane(parameters, slot, events[slot], samples[0], tickIndex,
                                                      old(LaneAt(slot)))
                                    else old(LaneAt(slot))
      {
        assert order[..k + 1] == order[..k] + [order[k]];
        if order[k] < parameters.candidateCount {
          EvaluateThread(order[k], tickIndex);
        }
      }
      assert order[..|order|] == order;
    }

    /** The staged pipeline over the whole timeline: Prepare, Physics, Evaluate per tick.  It leaves every
        candidate as the fused run does exactly if that run takes no scripted exit. */
    method RunStaged(orders: seq<StageOrders>)
      requires Valid() && |orders| == parameters.timelineTickCount
      requires forall k :: 0 <= k < |orders| ==> orders[k].Covers(parameters.candidateCount)
      modifies Buffers()
      ensures samples[0] == old(samples[0])
      ensures forall slot :: 0 <= slot < parameters.candidateCount ==>
                (LaneAt(slot).candidate == FusedRun(parameters, slot, events[slot], old(samples[0]),
                                                    old(LaneAt(slot)).candidate, 0, parameters.timelineTickCount)
                 <==> !TakesScriptedExit(parameters, slot, events[slot], old(samples[0]),
                                         old(LaneAt(slot)).candidate, 0, parameters.timelineTickCount))
    {
      ghost var last := parameters.timelineTickCount;
      for tickIndex := 0 to parameters.timelineTickCount
        invariant samples[0] == old(samples[0])
        invariant forall slot :: 0 <= slot < parameters.candidateCount ==>
                    StagedRun(parameters, slot, events[slot], samples[0], LaneAt(slot), tickIndex, last) ==
                    StagedRun(parameters, slot, events[slot], samples[0], old(LaneAt(slot)), 0, last)
      {
        DispatchPrepare(orders[tickIndex].prepare, tickIndex);
        DispatchPhysics(orders[tickIndex].physics);
        DispatchEvaluate(orders[tickIndex].evaluate, tickIndex);
      }
      forall slot | 0 <= slot < parameters.candidateCount
        ensures LaneAt(slot).candidate == FusedRun(parameters, slot, events[slot], old(samples[0]),
                                                   old(LaneAt(slot)).candidate, 0, last)
                <==> !TakesScriptedExit(parameters, slot, events[slot], old(samples[0]),
                                        old(LaneAt(slot)).candidate, 0, last)
      {
        StagedRunEqualsFusedRunIff(parameters, slot, events[slot], samples[0], old(LaneAt(slot)), 0, last);
      }
    }

    // ----- The fused kernel

    /** One iteration of the fused tick loop, on the thread's local copies. */
    method FusedIteration(slot: nat, tickIndex: nat, incumbent: Sample, entry: Candidate)
      returns (exit: Candidate)
      requires Valid() && slot < parameters.candidateCount && tickIndex < parameters.timelineTickCount
      ensures exit == FusedTick(parameters, slot, events[slot], incumbent, tickIndex, entry)
    {
      var publicTime := parameters.PublicTime(tickIndex);
      var suffixTime := publicTime - parameters.mutableFromTimeMs;
      var cursor, control := entry.cursor, entry.control;
      while cursor < |events[slot]| && events[slot][cursor].timeMs <= suffixTime
        invariant ApplyDue(parameters, events[slot], suffixTime, cursor, control) ==
                  ApplyDue(parameters, events[slot], suffixTime, entry.cursor, entry.control)
      {
        control := parameters.applyEvent(control, events[slot][cursor], parameters.mutableFromTimeMs);
        cursor := cursor + 1;
      }
      var previousPosition := entry.state.position;
      var state := parameters.advance(entry.state, ControlTick(parameters, tickIndex, control));
      exit := entry.(state := state, control := control, cursor := cursor);
      if publicTime < parameters.evaluationStartTimeMs {
        return;
      }
      exit := exit.(evaluationIndex := entry.evaluationIndex + 1);
      if parameters.hasCondition && !parameters.condition(state, parameters.Iteration(slot)) {
        exit := exit.(active := !state.raceCompleted);
        return;
      }
      if parameters.kind.ScriptedKind? {
        var updated, sample := UpdateScriptedSample(
          parameters.goals, parameters.expression(state, parameters.Iteration(slot)), publicTime, entry.best);
        if updated {
          exit := exit.(best := parameters.Stamp(slot, |events[slot]|, entry.evaluationIndex, sample));
        }
        exit := exit.(active := !state.raceCompleted);
        return;
      }
      var (raw, reported) := parameters.evaluate(
        state, previousPosition, publicTime - parameters.tickDurationMs, publicTime, entry.reported);
      exit := exit.(reported := reported);
      var sample := parameters.Stamp(slot, |events[slot]|, entry.evaluationIndex, raw);
      if StrictlyBetter(sample, exit.best, MaximizesScore(parameters.kind)) {
        exit := exit.(best := sample);
      }
      if StopsWhenReported(parameters.kind) && reported {
        exit := exit.(active := false);
      } else if parameters.Prunes(incumbent, tickIndex) {
        exit := exit.(best := EMPTY_SAMPLE, active := false);
      }
    }

    /** The write-back at the end of a fused thread. */
    method WriteBack(slot: nat, local: Candidate)
      requires Valid() && slot < parameters.candidateCount && simulationActive[slot]
      modifies controls, cursors, evaluationIndices, reported, samples, states, simulationActive
      ensures samples[0] == old(samples[0])
      ensures LaneAt(slot).candidate == local
      ensures forall s :: 0 <= s < parameters.candidateCount && s != slot ==> LaneAt(s) == old(LaneAt(s))
    {
      if !local.active {
        simulationActive[slot] := false;
      }
      controls[slot] := local.control;
      cursors[slot] := local.cursor;
      evaluationIndices[slot] := local.evaluationIndex;
      reported[slot] := local.reported;
      samples[slot + 1] := local.best;
      states[slot] := local.state;
    }

    /** One thread of ExecuteVulkanSearchCandidates: local copies, a tick loop, one write-back. */
    method FusedThread(slot: nat, tickBase: nat, tickCount: nat)
      requires Valid() && slot < parameters.candidateCount
      modifies Buffers()
      ensures samples[0] == old(samples[0])
      ensures LaneAt(slot).candidate ==
              FusedRun(parameters, slot, events[slot], samples[0], old(LaneAt(slot)).candidate, tickBase,
                       ChunkEnd(parameters, tickBase, tickCount))
      ensures forall s :: 0 <= s < parameters.candidateCount && s != slot ==> LaneAt(s) == old(LaneAt(s))
    {
      if !simulationActive[slot] {
        return;
      }
      var local := Candidate(states[slot], controls[slot], cursors[slot], true, reported[slot],
                             evaluationIndices[slot], samples[slot + 1]);
      ghost var entry := local;
      var incumbent := samples[0];
      var tickEnd := if tickBase + tickCount <= parameters.timelineTickCount
                     then tickBase + tickCount else parameters.timelineTickCount;
      var tickIndex := tickBase;
      while tickIndex < tickEnd && local.active
        invariant FusedRun(parameters, slot, events[slot], incumbent, entry, tickBase, tickEnd) ==
                  FusedRun(parameters, slot, events[slot], incumbent, local, tickIndex, tickEnd)
        decreases tickEnd - tickIndex
        modifies {}
      {
        local := FusedIteration(slot, tickIndex, incumbent, local);
        tickIndex := tickIndex + 1;
      }
      WriteBack(slot, local);
    }

    method DispatchFused(order: seq<nat>, tickBase: nat, tickCount: nat)
      requires Valid() && CoversOnce(order, parameters.candidateCount)
      modifies Buffers()
      ensures samples[0] == old(samples[0])
      ensures forall slot :: 0 <= slot < parameters.candidateCount ==>
                LaneAt(slot).candidate ==
                FusedRun(parameters, slot, events[slot], samples[0], old(LaneAt(slot)).candidate, tickBase,
                         ChunkEnd(parameters, tickBase, tickCount))
    {
      for k := 0 to |order|
        invariant samples[0] == old(samples[0])
        invariant forall slot :: 0 <= slot < parameters.candidateCount ==>
                    LaneAt(slot).candidate ==
                    if slot in order[..k]
                    then FusedRun(parameters, slot, events[slot], samples[0], old(LaneAt(slot)).candidate, tickBase,
                                  ChunkEnd(parameters, tickBase, tickCount))
                    else old(LaneAt(slot)).candidate
      {
        assert order[..k + 1] == order[..k] + [order[k]];
        if order[k] < parameters.candidateCount {
          FusedThread(order[k], tickBase, tickCount);
        }
      }
      assert order[..|order|] == order;
    }

    /** The fused kernel dispatched over consecutive chunks that cover the timeline. */
    method RunFused(orders: seq<seq<nat>>, chunks: seq<nat>)
      requires Valid() && |orders| == |chunks|
      requires forall k :: 0 <= k < |orders| ==> CoversOnce(orders[k], parameters.candidateCount)
      requires Sum(chunks) >= parameters.timelineTickCount
      modifies Buffers()
      ensures samples[0] == old(samples[0])
      ensures forall slot :: 0 <= slot < parameters.candidateCount ==>
                LaneAt(slot).candidate == FusedRun(parameters, slot, events[slot], old(samples[0]),
                                                   old(LaneAt(slot)).candidate, 0, parameters.timelineTickCount)
      ensures parameters.tickDurationMs >= 0 ==>
                forall slot :: 0 <= slot < parameters.candidateCount ==>
                  TimesAscend(events[slot]) && old(cursors[slot]) <= |events[slot]| ==>
                  InputsApplied(parameters, events[slot], old(LaneAt(slot)).candidate, LaneAt(slot).candidate)
    {
      var tickBase := 0;
      for i := 0 to |chunks|
        invariant samples[0] == old(samples[0])
        invariant forall slot :: 0 <= slot < parameters.candidateCount ==>
                    FusedChunks(parameters, slot, events[slot], samples[0], LaneAt(slot).candidate, tickBase,
                                chunks[i..]) ==
                    FusedChunks(parameters, slot, events[slot], samples[0], old(LaneAt(slot)).candidate, 0, chunks)
      {
        assert chunks[i..][1..] == chunks[i + 1..];
        DispatchFused(orders[i], tickBase, chunks[i]);
        tickBase := tickBase + chunks[i];
      }
      forall slot | 0 <= slot < parameters.candidateCount
        ensures LaneAt(slot).candidate == FusedRun(parameters, slot, events[slot], samples[0],
                                                   old(LaneAt(slot)).candidate, 0, parameters.timelineTickCount)
      {
        ChunksEqualOneRun(parameters, slot, events[slot], samples[0], old(LaneAt(slot)).candidate, 0, chunks);
      }
      forall slot | 0 <= slot < parameters.candidateCount && parameters.tickDurationMs >= 0
                    && TimesAscend(events[slot]) && old(cursors[slot]) <= |events[slot]|
        ensures InputsApplied(parameters, events[slot], old(LaneAt(slot)).candidate, LaneAt(slot).candidate)
      {
        RunApplies(parameters, slot, events[slot], samples[0], old(LaneAt(slot)).candidate);
      }
    }

    /** What the reduction reads after a run. */
    lemma {:induction false} BestsOfRun(incumbent: Sample, initial: seq<Candidate>)
      requires Valid() && |initial| == parameters.candidateCount
      requires forall slot :: 0 <= slot < parameters.candidateCount ==>
                 LaneAt(slot).candidate ==
                 FusedRun(parameters, slot, events[slot], incumbent, initial[slot], 0, parameters.timelineTickCount)
      ensures samples[1..] == BatchBests(parameters, incumbent, initial, events)
    {
      assert forall slot :: 0 <= slot < parameters.candidateCount ==>
        samples[1..][slot] == LaneAt(slot).candidate.best;
    }

    // ----- The reduction

    /** The reduction loop over the slots: the winner, the slot that holds it, the improvements. */
    method ReduceSlots() returns (winner: Sample, winnerSlot: Option<nat>, improvements: nat)
      requires Valid()
      ensures var order := OrderOf(parameters.kind);
              && winner == Scan(order, samples[0], samples[1..])
              && improvements == Improvements(order, samples[0], samples[1..])
      ensures winnerSlot.None? <==> improvements == 0
      ensures winnerSlot.Some? ==>
                winnerSlot.value < parameters.candidateCount && winner == samples[winnerSlot.value + 1]
    {
      ghost var order := OrderOf(parameters.kind);
      winner, winnerSlot, improvements := samples[0], None, 0;
      for slot := 0 to parameters.candidateCount
        invariant winner == Scan(order, samples[0], samples[1..slot + 1])
        invariant improvements == Improvements(order, samples[0], samples[1..slot + 1])
        invariant winnerSlot.None? <==> improvements == 0
        invariant winnerSlot.Some? ==> winnerSlot.value < slot && winner == samples[winnerSlot.value + 1]
      {
        var sample := samples[slot + 1];
        assert samples[1..slot + 2][..slot] == samples[1..slot + 1];
        var better := DecideBetter(parameters.kind, sample, winner);
        if better {
          improvements := improvements + 1;
          winner := sample;
          winnerSlot := Some(slot);
        }
      }
      assert samples[1..parameters.candidateCount + 1] == samples[1..];
    }

    /** The three totals that the summary reports. */
    method Totals() returns (status: nat, evaluated: nat, mutations: nat)
      requires Valid()
      ensures status == BatchStatus(statuses)
      ensures evaluated == CountTrue(activeCandidates) && mutations == Total(mutationCounts)
    {
      status, evaluated, mutations := 0, 0, 0;
      for slot := 0 to parameters.candidateCount
        invariant status == BatchStatus(statuses[..slot])
        invariant evaluated == CountTrue(activeCandidates[..slot]) && mutations == Total(mutationCounts[..slot])
      {
        assert statuses[..slot + 1][..slot] == statuses[..slot];
        assert activeCandidates[..slot + 1][..slot] == activeCandidates[..slot];
        assert mutationCounts[..slot + 1][..slot] == mutationCounts[..slot];
        if statuses[slot] == 2 {
          status := 4;
        } else if statuses[slot] == 1 {
          status := 3;
        } else if statuses[slot] == 4 {
          status := 6;
        }
        if activeCandidates[slot] {
          evaluated := evaluated + 1;
        }
        mutations := mutations + mutationCounts[slot];
      }
      assert statuses[..parameters.candidateCount] == statuses;
      assert activeCandidates[..parameters.candidateCount] == activeCandidates;
      assert mutationCounts[..parameters.candidateCount] == mutationCounts;
    }

    /** FinalizeVulkanSearchBatch.  The winner of a candidate batch is the scan of the slot bests;
        the final comparison with the old incumbent never refuses it. */
    method Finalize()
      requires Valid() && (parameters.baseline ==> parameters.candidateCount > 0)
      modifies `summary, winnerEvents
      ensures summary.status == BatchStatus(statuses)
      ensures summary.evaluatedCandidateCount == CountTrue(activeCandidates)
      ensures summary.totalMutationCount == Total(mutationCounts)
      ensures !parameters.baseline ==>
                && summary.winner == Scan(OrderOf(parameters.kind), samples[0], samples[1..])
                && summary.mutationImprovementCount ==
                   Improvements(OrderOf(parameters.kind), samples[0], samples[1..])
                && (summary.winnerSlot.None? <==> summary.mutationImprovementCount == 0)
      ensures parameters.baseline ==>
                var accepted := if parameters.kind.ScriptedKind? then Better(Scripted, samples[1], samples[0])
                                else samples[1].valid;
                && summary.winner == (if accepted then samples[1] else samples[0])
                && summary.winnerSlot == (if accepted then Some(0) else None)
                && summary.mutationImprovementCount == 0
      ensures summary.winnerSlot.Some? ==>
                && summary.winnerSlot.value < parameters.candidateCount
                && summary.winner == samples[summary.winnerSlot.value + 1]
      ensures summary.bestChanged ==>
                && summary.winnerSlot.Some?
                && summary.winnerEventCount == |events[summary.winnerSlot.value]|
                && summary.winnerMutationCount == mutationCounts[summary.winnerSlot.value]
                && winnerEvents[..summary.winnerEventCount] == events[summary.winnerSlot.value]
      ensures !summary.bestChanged ==> winnerEvents[..] == old(winnerEvents[..])
      ensures summary.bestChanged <==> summary.winnerSlot.Some?
      ensures summary.winnerSlot.None? ==> summary.winner == samples[0]
    {
      var status, evaluated, mutations := Totals();
      var winner, winnerSlot: Option<nat>, improvements := samples[0], None, 0;
      if parameters.baseline {
        var accepted := samples[1].valid;
        if parameters.kind.ScriptedKind? {
          accepted := ScriptedBetter(samples[1], samples[0]);
        }
        if accepted {
          winner, winnerSlot := samples[1], Some(0);
        }
      } else {
        winner, winnerSlot, improvements := ReduceSlots();
      }
      var slot := if winnerSlot.Some? then winnerSlot.value else 0;
      var changed := winnerSlot.Some? && winner.valid &&
                     (parameters.kind.ScriptedKind? || parameters.baseline ||
                      StrictlyBetter(winner, samples[0], MaximizesScore(parameters.kind)));
      if winnerSlot.Some? && !parameters.baseline {
        RecheckHolds();
      }
      ImprovedWinnerBeats(OrderOf(parameters.kind), samples[0], samples[1..]);
      if changed {
        CopyWinnerEvents(slot);
      }
      summary := Summary(status, winner, winnerSlot,
                         if changed then |events[slot]| else 0, if changed then mutationCounts[slot] else 0,
                         evaluated, mutations, improvements, changed);
    }

    /** The reduction after a run, and what it reports. */
    method Conclude(incumbent: Sample, ghost initial: seq<Candidate>)
      returns (summary: Summary, copied: seq<Event>)
      requires Valid() && !parameters.baseline && |initial| == parameters.candidateCount && samples[0] == incumbent
      requires forall slot :: 0 <= slot < parameters.candidateCount ==>
                 LaneAt(slot).candidate ==
                 FusedRun(parameters, slot, events[slot], incumbent, initial[slot], 0, parameters.timelineTickCount)
      modifies `summary, winnerEvents
      ensures var bests := BatchBests(parameters, incumbent, initial, events);
        && summary.winner == Scan(OrderOf(parameters.kind), incumbent, bests)
        && Reports(incumbent, bests, events, mutationCounts, summary, copied)
    {
      BestsOfRun(incumbent, initial);
      Finalize();
      summary := this.summary;
      copied := if summary.bestChanged then winnerEvents[..summary.winnerEventCount] else [];
    }

    /** Whatever the scores, a winner that replaced the incumbent is valid, and in a scalar search it passes
        the final comparison. */
    lemma {:induction false} RecheckHolds()
      requires Valid() && Improvements(OrderOf(parameters.kind), samples[0], samples[1..]) > 0
      ensures var winner := Scan(OrderOf(parameters.kind), samples[0], samples[1..]);
        && winner.valid
        && (!parameters.kind.ScriptedKind? ==>
              StrictlyBetter(winner, samples[0], MaximizesScore(parameters.kind)))
    {
      if parameters.kind.ScriptedKind? {
        ImprovedWinnerIsValid(samples[0], samples[1..]);
      } else {
        ImprovedWinnerBeats(OrderOf(parameters.kind), samples[0], samples[1..]);
      }
    }

    method CopyWinnerEvents(slot: nat)
      requires Valid() && slot < parameters.candidateCount
      modifies winnerEvents
      ensures winnerEvents[..|events[slot]|] == events[slot]
    {
      for index := 0 to |events[slot]|
        invariant winnerEvents[..index] == events[slot][..index]
      {
        winnerEvents[index] := events[slot][index];
      }
    }
  }

  /** The candidates that initialisation leaves in all slots. */
  ghost function InitialCandidates(p: Parameters, branchState: VehicleState, boundary: ControlState,
                                   activeCandidates: seq<bool>): seq<Candidate>
  {
    seq(|activeCandidates|, slot requires 0 <= slot < |activeCandidates| =>
      InitialCandidate(p, slot, branchState, boundary, activeCandidates[slot]))
  }

  /** The listing names every emitted sample once and in increasing logical order, no slot hides a score behind
      a NaN, and the search compares samples by their scores alone. */
  ghost predicate FlatListing(p: Parameters, incumbent: Sample, initial: seq<Candidate>, events: seq<seq<Event>>,
                              flat: seq<Sample>)
    requires p.Valid() && |initial| == |events|
  {
    && PlainSelection(p, incumbent)
    && EvaluationTicks(p, 0, p.timelineTickCount) <= p.evaluationTickCount
    && NoneHides(BatchEmitted(p, incumbent, initial, events))
    && multiset(flat) == multiset(Flatten(BatchEmitted(p, incumbent, initial, events)))
    && Increasing(flat)
  }

  /** What a batch search promises of its winner. */
  ghost predicate Selects(p: Parameters, incumbent: Sample, initial: seq<Candidate>, events: seq<seq<Event>>,
                          winner: Sample)
    requires p.Valid() && |initial| == |events|
  {
    var bests := BatchBests(p, incumbent, initial, events);
    && (forall flat :: FlatListing(p, incumbent, initial, events, flat) ==>
          winner == Scan(OrderOf(p.kind), incumbent, flat))
    && (p.kind.ScriptedKind? && Ranked(Scripted, incumbent) ==>
          && Ranked(Scripted, winner)
          && (winner == incumbent || (winner in bests && Better(Scripted, winner, incumbent)))
          && (forall x :: x in bests || x == incumbent ==> !Better(Scripted, x, winner)))
  }

  lemma {:induction false} ReductionSelects(p: Parameters, incumbent: Sample, initial: seq<Candidate>,
                                            events: seq<seq<Event>>)
    requires p.Valid() && |initial| == |events|
    requires forall slot :: 0 <= slot < |initial| ==>
               initial[slot].evaluationIndex == 0 && initial[slot].best == EMPTY_SAMPLE
    ensures Selects(p, incumbent, initial, events,
                    Scan(OrderOf(p.kind), incumbent, BatchBests(p, incumbent, initial, events)))
  {
    forall flat | FlatListing(p, incumbent, initial, events, flat)
      ensures Scan(OrderOf(p.kind), incumbent, BatchBests(p, incumbent, initial, events)) ==
              Scan(OrderOf(p.kind), incumbent, flat)
    {
      BatchWinnerIsFlatScan(p, incumbent, initial, events, flat);
    }
    if p.kind.ScriptedKind? && Ranked(Scripted, incumbent) {
      ScriptedWinnerIsMaximal(p, incumbent, initial, events);
    }
  }

  /** MAIN RESULT.  Initialisation, the fused kernel over any chunks with any thread orders, and the final
      reduction together return the winner of one scan over everything the batch emits; in a scripted
      search they return a sample that neither a slot's best nor the incumbent dominates.  Slot, counts and
      events that come with it are those of the slot that won. */
  method SearchBatch(parameters: Parameters, events: seq<seq<Event>>, activeCandidates: seq<bool>,
                     mutationCounts: seq<nat>, statuses: seq<nat>, branchState: VehicleState,
                     boundary: ControlState, incumbent: Sample, eventCapacity: nat,
                     orders: seq<seq<nat>>, chunks: seq<nat>)
    returns (summary: Summary, winnerEvents: seq<Event>)
    requires parameters.Valid() && !parameters.baseline
    requires |events| == |activeCandidates| == |mutationCounts| == |statuses| == parameters.candidateCount
    requires forall slot :: 0 <= slot < |events| ==> |events[slot]| <= eventCapacity
    requires |orders| == |chunks| && Sum(chunks) >= parameters.timelineTickCount
    requires forall k :: 0 <= k < |orders| ==> CoversOnce(orders[k], parameters.candidateCount)
    ensures Selects(parameters, incumbent,
                    InitialCandidates(parameters, branchState, boundary, activeCandidates), events, summary.winner)
    ensures var bests := BatchBests(parameters, incumbent,
                           InitialCandidates(parameters, branchState, boundary, activeCandidates), events);
            Reports(incumbent, bests, events, mutationCounts, summary, winnerEvents)
  {
    var device := new Device(parameters, events, activeCandidates, mutationCounts, statuses, branchState, boundary,
                             incumbent, eventCapacity);
    ghost var initial := InitialCandidates(parameters, branchState, boundary, activeCandidates);
    device.RunFused(orders, chunks);
    summary, winnerEvents := device.Conclude(incumbent, initial);
    ReductionSelects(parameters, incumbent, initial, events);
  }
}

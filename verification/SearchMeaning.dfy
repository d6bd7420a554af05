/** What a tick, a run and a batch of the search do, told without the functions that compute it: which
    events are applied, what is simulated and evaluated, and which sample wins. */
module SearchMeaning {
  import opened Arithmetic
  import opened Common
  import opened Inputs
  import opened SearchSamples
  import opened SearchSelection
  import opened ScriptedMerge
  import opened SearchTicks

  // ----- Input events

  /** Control states that the events from a cursor on lead through, one event after the other. */
  ghost predicate Leads(p: Parameters, events: seq<Event>, cursor: nat, controls: seq<ControlState>) {
    && |controls| > 0 && cursor + |controls| - 1 <= |events|
    && forall j :: 0 <= j < |controls| - 1 ==>
         controls[j + 1] == p.applyEvent(controls[j], events[cursor + j], p.mutableFromTimeMs)
  }

  lemma {:induction false} DueEvents(p: Parameters, events: seq<Event>, suffixTime: int, cursor: nat,
                                     control: ControlState)
    returns (controls: seq<ControlState>)
    requires cursor <= |events|
    ensures Leads(p, events, cursor, controls) && controls[0] == control
    ensures var end := cursor + |controls| - 1;
      && ApplyDue(p, events, suffixTime, cursor, control) == (end, controls[|controls| - 1])
      && (forall j :: cursor <= j < end ==> events[j].timeMs <= suffixTime)
      && (end < |events| ==> events[end].timeMs > suffixTime)
    decreases |events| - cursor
  {
    if cursor < |events| && events[cursor].timeMs <= suffixTime {
      var next := p.applyEvent(control, events[cursor], p.mutableFromTimeMs);
      var later := DueEvents(p, events, suffixTime, cursor + 1, next);
      controls := [control] + later;
    } else {
      controls := [control];
    }
  }

  /** What a tick does to cursor, controls and vehicle: the events from the cursor on that are due, and no
      other, are applied in order, and the vehicle is stepped under the controls that result. */
  ghost predicate TickInputs(p: Parameters, events: seq<Event>, tickIndex: nat, c: Candidate, next: Candidate,
                             controls: seq<ControlState>)
    requires tickIndex < |p.baselineTicks|
  {
    var suffixTime := p.branchTimeMs + (tickIndex + 1) * p.tickDurationMs - p.mutableFromTimeMs;
    && Leads(p, events, c.cursor, controls)
    && controls[0] == c.control && next.control == controls[|controls| - 1]
    && next.cursor == c.cursor + |controls| - 1
    && (forall j :: c.cursor <= j < next.cursor ==> events[j].timeMs <= suffixTime)
    && (next.cursor < |events| ==> events[next.cursor].timeMs > suffixTime)
    && next.state == p.advance(c.state, p.baselineTicks[tickIndex].(
         observe := false,
         controls := p.controlsFrom(next.control),
         stuntsInput := p.stuntsFrom(next.control, p.prestartDurationMs)))
  }

  /** MAIN RESULT.  A fused tick applies exactly the due events. */
  lemma {:induction false} FusedTickInputs(p: Parameters, slot: nat, events: seq<Event>, incumbent: Sample,
                                           tickIndex: nat, c: Candidate)
    returns (controls: seq<ControlState>)
    requires tickIndex < |p.baselineTicks| && c.cursor <= |events|
    ensures TickInputs(p, events, tickIndex, c, FusedTick(p, slot, events, incumbent, tickIndex, c), controls)
  {
    controls := DueEvents(p, events, p.PublicTime(tickIndex) - p.mutableFromTimeMs, c.cursor, c.control);
  }

  /** MAIN RESULT.  So does a staged tick. */
  lemma {:induction false} StagedTickInputs(p: Parameters, slot: nat, events: seq<Event>, incumbent: Sample,
                                            tickIndex: nat, lane: Lane)
    returns (controls: seq<ControlState>)
    requires tickIndex < |p.baselineTicks| && lane.candidate.active && lane.candidate.cursor <= |events|
    ensures TickInputs(p, events, tickIndex, lane.candidate,
                       StagedTick(p, slot, events, incumbent, tickIndex, lane).candidate, controls)
  {
    var c := lane.candidate;
    controls := DueEvents(p, events, p.PublicTime(tickIndex) - p.mutableFromTimeMs, c.cursor, c.control);
    var prepared := PrepareLane(p, events, tickIndex, lane);
    assert prepared.candidate.active && PhysicsLane(p, prepared).candidate.active;
  }

  // ----- Evaluation

  /** The sample that a slot records for what the evaluator returns. */
  ghost predicate RecordedAs(p: Parameters, slot: nat, eventCount: nat, index: nat, raw: Sample, sample: Sample) {
    sample == raw.(candidateId := p.firstCandidateId + slot,
                   candidateSlot := slot,
                   evaluationTick := index,
                   eventCount := eventCount,
                   logicalOrder := 1 + slot * p.evaluationTickCount + index,
                   mutation := !p.baseline)
  }

  /** What a tick does to the evaluation state, given the stepped vehicle. */
  ghost predicate TickEvaluation(p: Parameters, slot: nat, events: seq<Event>, incumbent: Sample, tickIndex: nat,
                                 c: Candidate, next: Candidate)
  {
    var time := p.branchTimeMs + (tickIndex + 1) * p.tickDurationMs;
    var iteration := if p.baseline then 0 else p.firstCandidateId + slot + 1;
    if time < p.evaluationStartTimeMs then
      next.best == c.best && next.evaluationIndex == c.evaluationIndex && next.reported == c.reported && next.active
    else
      && next.evaluationIndex == c.evaluationIndex + 1
      && if p.hasCondition && !p.condition(next.state, iteration) then
           next.best == c.best && next.reported == c.reported && next.active == !next.state.raceCompleted
         else if p.kind == ScriptedKind then
           && next.reported == c.reported && next.active == !next.state.raceCompleted
           && match Merge(p.goals, p.expression(next.state, iteration), time, c.best)
              case None => next.best == c.best
              case Some(merged) => RecordedAs(p, slot, |events|, c.evaluationIndex, merged, next.best)
         else
           PlainEvaluation(p, slot, events, incumbent, time, c, next)
  }

  ghost predicate PlainEvaluation(p: Parameters, slot: nat, events: seq<Event>, incumbent: Sample, time: int,
                                  c: Candidate, next: Candidate)
  {
    var scored := p.evaluate(next.state, c.state.position, time - p.tickDurationMs, time, c.reported);
    var late := p.kind == FinishTime && incumbent.preciseFinish && AtLeast(Num(time as real), incumbent.timeMs);
    var ends := next.reported &&
      p.kind in {FinishTime, VolumeEntry, ConditionTimeEarliest, ConditionTimeLatest};
    var maximize := p.kind in {Velocity, StuntPoints, ConditionTimeLatest};
    && next.reported == scored.1
    && next.active == (!ends && !late)
    && (late && !ends ==> next.best == EMPTY_SAMPLE)
    && (!late || ends ==>
          exists sample :: RecordedAs(p, slot, |events|, c.evaluationIndex, scored.0, sample)
            && next.best == if StrictlyBetter(sample, c.best, maximize) then sample else c.best)
  }

  /** IEEE comparison by at least. */
  ghost predicate AtLeast(a: Float, b: Float) {
    !a.NaN? && !b.NaN? && !Less(a, b)
  }

  lemma {:induction false} FusedTickEvaluation(p: Parameters, slot: nat, events: seq<Event>, incumbent: Sample,
                                               tickIndex: nat, c: Candidate)
    requires tickIndex < |p.baselineTicks| && c.active
    ensures TickEvaluation(p, slot, events, incumbent, tickIndex, c,
                           FusedTick(p, slot, events, incumbent, tickIndex, c))
  {
    var next := FusedTick(p, slot, events, incumbent, tickIndex, c);
    var time := p.PublicTime(tickIndex);
    var raw := p.evaluate(next.state, c.state.position, time - p.tickDurationMs, time, c.reported).0;
    assert RecordedAs(p, slot, |events|, c.evaluationIndex, raw, p.Stamp(slot, |events|, c.evaluationIndex, raw));
  }

  /** A staged tick does the same, but leaves a scripted candidate active whose race is complete. */
  lemma {:induction false} StagedTickEvaluation(p: Parameters, slot: nat, events: seq<Event>, incumbent: Sample,
                                                tickIndex: nat, lane: Lane)
    requires tickIndex < |p.baselineTicks| && lane.candidate.active
    ensures var c, next := lane.candidate, StagedTick(p, slot, events, incumbent, tickIndex, lane).candidate;
            TickEvaluation(p, slot, events, incumbent, tickIndex, c,
              if ScriptedExit(p, slot, events, tickIndex, c) then next.(active := false) else next)
  {
    var c, next := lane.candidate, StagedTick(p, slot, events, incumbent, tickIndex, lane).candidate;
    FusedTickEvaluation(p, slot, events, incumbent, tickIndex, c);
    StagedTickAgreesIff(p, slot, events, incumbent, tickIndex, lane);
    if ScriptedExit(p, slot, events, tickIndex, c) {
      StagedExit(p, slot, events, incumbent, tickIndex, lane);
    }
  }

  lemma {:induction false} StagedExit(p: Parameters, slot: nat, events: seq<Event>, incumbent: Sample, tickIndex: nat,
                                      lane: Lane)
    requires tickIndex < |p.baselineTicks| && ScriptedExit(p, slot, events, tickIndex, lane.candidate)
    ensures StagedTick(p, slot, events, incumbent, tickIndex, lane).candidate.(active := false) ==
            FusedTick(p, slot, events, incumbent, tickIndex, lane.candidate)
  {
    var physics := PhysicsLane(p, PrepareLane(p, events, tickIndex, lane)).candidate;
    assert physics.active && physics.state == StateAfter(p, events, tickIndex, lane.candidate);
  }

  // ----- Runs

  /** The events that a run has applied when ticks up to one before `ticks` were simulated: exactly those due at
      the last of them, each once and in order. */
  ghost predicate RunInputs(p: Parameters, events: seq<Event>, c: Candidate, last: Candidate, from: nat, ticks: nat,
                            controls: seq<ControlState>)
  {
    && Leads(p, events, c.cursor, controls)
    && controls[0] == c.control && last.control == controls[|controls| - 1]
    && last.cursor == c.cursor + |controls| - 1
    && (ticks == from ==> last.cursor == c.cursor)
    && (ticks > from ==> forall j :: c.cursor <= j < |events| ==>
          (j < last.cursor <==> events[j].timeMs <= p.branchTimeMs + ticks * p.tickDurationMs - p.mutableFromTimeMs))
  }

  lemma {:induction false} LeadsOn(p: Parameters, events: seq<Event>, cursor: nat, first: seq<ControlState>,
                                   later: seq<ControlState>)
    requires Leads(p, events, cursor, first) && Leads(p, events, cursor + |first| - 1, later)
    requires first[|first| - 1] == later[0]
    ensures Leads(p, events, cursor, first + later[1..])
    ensures (first + later[1..])[|first + later[1..]| - 1] == later[|later| - 1]
  {
    var all := first + later[1..];
    forall j | 0 <= j < |all| - 1
      ensures all[j + 1] == p.applyEvent(all[j], events[cursor + j], p.mutableFromTimeMs)
    {
      if j >= |first| - 1 {
        var k := j - (|first| - 1);
        assert all[j] == later[k] && all[j + 1] == later[k + 1];
        assert events[cursor + j] == events[cursor + |first| - 1 + k];
      }
    }
  }

  /** A later tick finds every earlier tick's events due. */
  lemma {:induction false} DueLater(p: Parameters, from: nat, ticks: nat)
    requires from < ticks && p.tickDurationMs >= 0
    ensures p.branchTimeMs + (from + 1) * p.tickDurationMs <= p.branchTimeMs + ticks * p.tickDurationMs
  {
    ProductMonotone(from + 1, ticks, p.tickDurationMs);
  }

  /** MAIN RESULT.  On a time-sorted list, a run applies every event that is due at the last tick it simulates,
      once and in order, and no other. */
  lemma {:induction false} FusedRunInputs(p: Parameters, slot: nat, events: seq<Event>, incumbent: Sample, c: Candidate,
                                          from: nat, end: nat)
    returns (ticks: nat, controls: seq<ControlState>)
    requires from <= end <= |p.baselineTicks| && c.cursor <= |events| && p.tickDurationMs >= 0
    requires forall i, j :: 0 <= i < j < |events| ==> events[i].timeMs <= events[j].timeMs
    ensures from <= ticks <= end
    ensures var last := FusedRun(p, slot, events, incumbent, c, from, end);
      && (ticks < end ==> !last.active) && (c.active && from < end ==> ticks > from)
      && RunInputs(p, events, c, last, from, ticks, controls)
    decreases end - from
  {
    if from == end || !c.active {
      ticks, controls := from, [c.control];
    } else {
      var next := FusedTick(p, slot, events, incumbent, from, c);
      var first := FusedTickInputs(p, slot, events, incumbent, from, c);
      var later;
      ticks, later := FusedRunInputs(p, slot, events, incumbent, next, from + 1, end);
      LeadsOn(p, events, c.cursor, first, later);
      controls := first + later[1..];
      DueLater(p, from, ticks);
      DueOnwards(p, events, c, next, FusedRun(p, slot, events, incumbent, next, from + 1, end), from, ticks, first,
                 later);
    }
  }

  /** Which events are applied once a further tick's events are. */
  lemma {:induction false} DueOnwards(p: Parameters, events: seq<Event>, c: Candidate, next: Candidate, last: Candidate,
                                      from: nat, ticks: nat, first: seq<ControlState>, later: seq<ControlState>)
    requires from < |p.baselineTicks| && from < ticks && TickInputs(p, events, from, c, next, first)
    requires RunInputs(p, events, next, last, from + 1, ticks, later)
    requires p.branchTimeMs + (from + 1) * p.tickDurationMs <= p.branchTimeMs + ticks * p.tickDurationMs
    requires forall i, j :: 0 <= i < j < |events| ==> events[i].timeMs <= events[j].timeMs
    ensures forall j :: c.cursor <= j < |events| ==>
      (j < last.cursor <==> events[j].timeMs <= p.branchTimeMs + ticks * p.tickDurationMs - p.mutableFromTimeMs)
  {
    forall j | c.cursor <= j < |events|
      ensures j < last.cursor <==>
              events[j].timeMs <= p.branchTimeMs + ticks * p.tickDurationMs - p.mutableFromTimeMs
    {
      if ticks == from + 1 && j >= next.cursor {
        assert events[next.cursor].timeMs <= events[j].timeMs || j == next.cursor;
      }
    }
  }

  ghost predicate TimesAscend(events: seq<Event>) {
    forall i, j :: 0 <= i < j < |events| ==> events[i].timeMs <= events[j].timeMs
  }

  /** A run over the whole timeline has applied its inputs up to the last tick that it simulated, which is the
      last one of all if the candidate is still active. */
  ghost predicate InputsApplied(p: Parameters, events: seq<Event>, c: Candidate, last: Candidate) {
    exists ticks: nat, controls {:trigger RunInputs(p, events, c, last, 0, ticks, controls)} ::
      && RunInputs(p, events, c, last, 0, ticks, controls) && ticks <= p.timelineTickCount
      && (ticks < p.timelineTickCount ==> !last.active)
      && (c.active && p.timelineTickCount > 0 ==> ticks > 0)
  }

  lemma {:induction false} RunApplies(p: Parameters, slot: nat, events: seq<Event>, incumbent: Sample, c: Candidate)
    requires p.Valid() && c.cursor <= |events| && p.tickDurationMs >= 0 && TimesAscend(events)
    ensures InputsApplied(p, events, c, FusedRun(p, slot, events, incumbent, c, 0, p.timelineTickCount))
  {
    var ticks, controls := FusedRunInputs(p, slot, events, incumbent, c, 0, p.timelineTickCount);
  }

  // ----- The winner by its score

  /** A valid sample has a score that is a number. */
  predicate Numbered(s: Sample) {
    s.valid ==> s.score.Num?
  }

  /** A valid sample with a better number than another's, or with the same and fewer events. */
  predicate Outscores(maximize: bool, a: Sample, b: Sample)
    requires Numbered(a) && Numbered(b)
  {
    a.valid && (b.valid ==>
      || (if maximize then a.score.v > b.score.v else a.score.v < b.score.v)
      || (a.score.v == b.score.v && a.eventCount < b.eventCount))
  }

  lemma {:induction false} BetterByScore(maximize: bool, a: Sample, b: Sample)
    requires Numbered(a) && Numbered(b)
    ensures StrictlyBetter(a, b, maximize) <==> Outscores(maximize, a, b)
  {
  }

  /** A sample that nothing before it in the list matches. */
  ghost predicate FirstBest(maximize: bool, samples: seq<Sample>, winner: Sample)
    requires Numbered(winner) && forall i :: 0 <= i < |samples| ==> Numbered(samples[i])
  {
    exists i :: 0 <= i < |samples| && samples[i] == winner
      && forall j :: 0 <= j < i ==> Outscores(maximize, winner, samples[j])
  }

  /** MAIN RESULT.  A scan of samples with numbers for scores ends with the incumbent or with the first of the best
      samples; nothing outscores it. */
  lemma {:induction false} ScanIsBest(maximize: bool, incumbent: Sample, samples: seq<Sample>)
    requires Numbered(incumbent) && forall i :: 0 <= i < |samples| ==> Numbered(samples[i])
    ensures var winner := Scan(Scalar(maximize), incumbent, samples);
      && Numbered(winner) && !Outscores(maximize, incumbent, winner)
      && (forall i :: 0 <= i < |samples| ==> !Outscores(maximize, samples[i], winner))
      && (winner == incumbent || (Outscores(maximize, winner, incumbent) && FirstBest(maximize, samples, winner)))
  {
    if samples != [] {
      var k := |samples| - 1;
      var before, x := Scan(Scalar(maximize), incumbent, samples[..k]), samples[k];
      ScanIsBest(maximize, incumbent, samples[..k]);
      BetterByScore(maximize, x, before);
      if StrictlyBetter(x, before, maximize) {
        assert forall j :: 0 <= j < k ==> samples[j] == samples[..k][j];
        assert samples[k] == x && forall j :: 0 <= j < k ==> Outscores(maximize, x, samples[j]);
      } else if before != incumbent {
        var i :| 0 <= i < k && samples[..k][i] == before
          && forall j :: 0 <= j < i ==> Outscores(maximize, before, samples[..k][j]);
        assert samples[i] == before && forall j :: 0 <= j < i ==> samples[j] == samples[..k][j];
      }
    }
  }

  lemma {:induction false} InFlatten(emitted: seq<seq<Sample>>, slot: nat, i: nat)
    requires slot < |emitted| && i < |emitted[slot]|
    ensures exists j :: 0 <= j < |Flatten(emitted)| && Flatten(emitted)[j] == emitted[slot][i]
  {
    var k := |emitted| - 1;
    var front := Flatten(emitted[..k]);
    if slot < k {
      InFlatten(emitted[..k], slot, i);
      var j :| 0 <= j < |front| && front[j] == emitted[..k][slot][i];
      assert Flatten(emitted)[j] == front[j];
    } else {
      assert Flatten(emitted)[|front| + i] == emitted[k][i];
    }
  }

  lemma {:induction false} FlattenNumbered(emitted: seq<seq<Sample>>)
    requires forall slot, i :: 0 <= slot < |emitted| && 0 <= i < |emitted[slot]| ==> Numbered(emitted[slot][i])
    ensures forall j :: 0 <= j < |Flatten(emitted)| ==> Numbered(Flatten(emitted)[j])
  {
    if emitted != [] {
      FlattenNumbered(emitted[..|emitted| - 1]);
    }
  }

  /** MAIN RESULT.  If all scores are numbers, no sample that any slot emits outscores the winner of a batch, and
      among equals the first in logical order wins. */
  lemma {:induction false} BatchWinnerIsBest(p: Parameters, incumbent: Sample, initial: seq<Candidate>,
                                             events: seq<seq<Event>>, maximize: bool)
    requires p.Valid() && |initial| == |events| && PlainSelection(p, incumbent)
    requires maximize <==> p.kind in {Velocity, StuntPoints, ConditionTimeLatest}
    requires forall slot :: 0 <= slot < |initial| ==>
               initial[slot].evaluationIndex == 0 && initial[slot].best == EMPTY_SAMPLE
    requires EvaluationTicks(p, 0, p.timelineTickCount) <= p.evaluationTickCount
    requires Numbered(incumbent)
    requires var emitted := BatchEmitted(p, incumbent, initial, events);
      forall slot, i :: 0 <= slot < |emitted| && 0 <= i < |emitted[slot]| ==> Numbered(emitted[slot][i])
    ensures var emitted := BatchEmitted(p, incumbent, initial, events);
      var winner := Scan(Scalar(maximize), incumbent, BatchBests(p, incumbent, initial, events));
      && Numbered(winner)
      && (forall slot, i :: 0 <= slot < |emitted| && 0 <= i < |emitted[slot]| ==>
            !Outscores(maximize, emitted[slot][i], winner))
      && (forall j :: 0 <= j < |Flatten(emitted)| ==> Numbered(Flatten(emitted)[j])) && Increasing(Flatten(emitted))
      && (winner == incumbent ||
          (Outscores(maximize, winner, incumbent) && FirstBest(maximize, Flatten(emitted), winner)))
  {
    var emitted := BatchEmitted(p, incumbent, initial, events);
    FlattenNumbered(emitted);
    forall slot | 0 <= slot < |emitted|
      ensures !Hides(emitted[slot]) && Stamped(slot, p.evaluationTickCount, emitted[slot])
    {
      EmittedIsStamped(p, slot, events[slot], incumbent, initial[slot], 0, p.timelineTickCount);
    }
    FlattenIncreases(emitted, p.evaluationTickCount);
    BatchWinnerIsFlatScan(p, incumbent, initial, events, Flatten(emitted));
    ScanIsBest(maximize, incumbent, Flatten(emitted));
    forall slot, i | 0 <= slot < |emitted| && 0 <= i < |emitted[slot]|
      ensures !Outscores(maximize, emitted[slot][i],
                         Scan(Scalar(maximize), incumbent, BatchBests(p, incumbent, initial, events)))
    {
      InFlatten(emitted, slot, i);
    }
  }
}

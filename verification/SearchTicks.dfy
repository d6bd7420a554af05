/** One candidate of the batch search, tick by tick: the three-stage pipeline, the fused
    kernel, and the proof that they do the same work.  The physics step and the evaluators are
    uninterpreted functions of the parameters. */
module SearchTicks {
  import opened Common
  import opened Inputs
  import opened SearchSamples
  import opened SearchSelection
  import opened ScriptedMerge

  datatype Kind =
    | Velocity | Point | Pose | VolumeEntry | StuntPoints | FinishTime
    | ScriptedKind | ConditionTimeEarliest | ConditionTimeLatest | CheckpointEvent

  predicate MaximizesScore(kind: Kind) {
    kind.Velocity? || kind.StuntPoints? || kind.ConditionTimeLatest?
  }

  /** Evaluators whose first report ends the candidate. */
  predicate StopsWhenReported(kind: Kind) {
    kind.FinishTime? || kind.VolumeEntry? || kind.ConditionTimeEarliest? || kind.ConditionTimeLatest?
  }

  datatype Vec3 = Vec3(x: Float, y: Float, z: Float)

  /** A slot's collision scratch: what initialisation sets, and everything it clears. */
  datatype Scratch = Scratch(slot: nat, stride: nat, shapeCapacity: nat, surfaceCacheEnabled: bool, words: seq<int>)

  /** The per-candidate physics state together with the slot's collision scratch. */
  datatype VehicleState =
    VehicleState(candidateId: Word, position: Vec3, raceCompleted: bool, words: seq<int>, scratch: Scratch)

  datatype ControlState = ControlState(words: seq<int>)

  datatype Tick = Tick(observe: bool, controls: seq<int>, stuntsInput: seq<int>, words: seq<int>)

  datatype Parameters = Parameters(
    candidateCount: nat,
    timelineTickCount: nat,
    evaluationTickCount: nat,
    firstCandidateId: nat,
    baseline: bool,
    branchTimeMs: int,
    tickDurationMs: int,
    mutableFromTimeMs: int,
    evaluationStartTimeMs: int,
    prestartDurationMs: int,
    kind: Kind,
    hasCondition: bool,
    goals: seq<Goal>,
    scratchStride: nat,
    shapeCapacity: nat,
    baselineTicks: seq<Tick>,
    applyEvent: (ControlState, Event, int) -> ControlState,
    controlsFrom: ControlState -> seq<int>,
    stuntsFrom: (ControlState, int) -> seq<int>,
    advance: (VehicleState, Tick) -> VehicleState,
    condition: (VehicleState, nat) -> bool,
    evaluate: (VehicleState, Vec3, int, int, bool) -> (Sample, bool),
    expression: (VehicleState, nat) -> (nat -> Option<Float>))
  {
    predicate Valid() {
      timelineTickCount <= |baselineTicks|
    }

    function PublicTime(tickIndex: nat): int {
      branchTimeMs + (tickIndex + 1) * tickDurationMs
    }

    /** The sample of a slot once a scripted tick is merged into it, if its objectives are usable. */
    function UpdateScripted(state: VehicleState, slot: nat, time: int, best: Sample): Option<Sample> {
      Merge(goals, expression(state, Iteration(slot)), time, best)
    }

    function Iteration(slot: nat): nat {
      if baseline then 0 else firstCandidateId + slot + 1
    }

    /** The fields that both kernels write over an evaluated sample. */
    function Stamp(slot: nat, eventCount: nat, evaluationIndex: nat, sample: Sample): Sample {
      sample.(candidateId := firstCandidateId + slot,
              candidateSlot := slot,
              evaluationTick := evaluationIndex,
              eventCount := eventCount,
              logicalOrder := 1 + slot * evaluationTickCount + evaluationIndex,
              mutation := !baseline)
    }

    /** A precise incumbent finish ends a finish-time candidate that is already later. */
    predicate Prunes(incumbent: Sample, tickIndex: nat) {
      kind.FinishTime? && incumbent.preciseFinish &&
      !Less(Num(PublicTime(tickIndex) as real), incumbent.timeMs) && !incumbent.timeMs.NaN?
    }
  }

  /** What persists of a candidate between dispatches. */
  datatype Candidate = Candidate(
    state: VehicleState,
    control: ControlState,
    cursor: nat,
    active: bool,
    reported: bool,
    evaluationIndex: nat,
    best: Sample)

  /** The event cursor and control state once every event due at suffixTime is applied. */
  function ApplyDue(p: Parameters, events: seq<Event>, suffixTime: int, cursor: nat, control: ControlState)
    : (nat, ControlState)
    decreases if cursor < |events| then |events| - cursor else 0
  {
    if cursor < |events| && events[cursor].timeMs <= suffixTime then
      ApplyDue(p, events, suffixTime, cursor + 1, p.applyEvent(control, events[cursor], p.mutableFromTimeMs))
    else (cursor, control)
  }

  /** The control tick that a candidate simulates. */
  function ControlTick(p: Parameters, tickIndex: nat, control: ControlState): Tick
    requires tickIndex < |p.baselineTicks|
  {
    p.baselineTicks[tickIndex].(observe := false,
                                controls := p.controlsFrom(control),
                                stuntsInput := p.stuntsFrom(control, p.prestartDurationMs))
  }

  // ----- The fused kernel

  /** One iteration of the fused kernel's tick loop for an active candidate. */
  function FusedTick(p: Parameters, slot: nat, events: seq<Event>, incumbent: Sample, tickIndex: nat,
                     c: Candidate): Candidate
    requires tickIndex < |p.baselineTicks|
  {
    var time := p.PublicTime(tickIndex);
    var (cursor, control) := ApplyDue(p, events, time - p.mutableFromTimeMs, c.cursor, c.control);
    var state := p.advance(c.state, ControlTick(p, tickIndex, control));
    var moved := c.(cursor := cursor, control := control, state := state);
    var index := c.evaluationIndex;
    if time < p.evaluationStartTimeMs then
      moved
    else if p.hasCondition && !p.condition(state, p.Iteration(slot)) then
      moved.(evaluationIndex := index + 1, active := !state.raceCompleted)
    else if p.kind.ScriptedKind? then
      var best := match p.UpdateScripted(state, slot, time, c.best)
                  case None => c.best
                  case Some(sample) => p.Stamp(slot, |events|, index, sample);
      moved.(best := best, evaluationIndex := index + 1, active := !state.raceCompleted)
    else
      var (raw, reported) := p.evaluate(state, c.state.position, time - p.tickDurationMs, time, c.reported);
      var sample := p.Stamp(slot, |events|, index, raw);
      var best := if StrictlyBetter(sample, c.best, MaximizesScore(p.kind)) then sample else c.best;
      var scored := moved.(best := best, reported := reported, evaluationIndex := index + 1);
      if StopsWhenReported(p.kind) && reported then scored.(active := false)
      else if p.Prunes(incumbent, tickIndex) then scored.(best := EMPTY_SAMPLE, active := false)
      else scored
  }

  /** The fused kernel's loop over the ticks from..to. */
  function FusedRun(p: Parameters, slot: nat, events: seq<Event>, incumbent: Sample, c: Candidate,
                    from: nat, to: nat): Candidate
    requires to <= |p.baselineTicks|
    decreases if from < to then to - from else 0
  {
    if from >= to || !c.active then c
    else FusedRun(p, slot, events, incumbent, FusedTick(p, slot, events, incumbent, from, c), from + 1, to)
  }

  // ----- The staged pipeline

  /** A candidate and the two buffers through which the stages of a tick communicate. */
  datatype Lane = Lane(candidate: Candidate, previousPosition: Vec3, tick: Tick)

  function PrepareLane(p: Parameters, events: seq<Event>, tickIndex: nat, lane: Lane): Lane
    requires tickIndex < |p.baselineTicks|
  {
    var c := lane.candidate;
    if !c.active then lane
    else
      var suffixTime := p.PublicTime(tickIndex) - p.mutableFromTimeMs;
      var (cursor, control) := ApplyDue(p, events, suffixTime, c.cursor, c.control);
      Lane(c.(cursor := cursor, control := control), c.state.position, ControlTick(p, tickIndex, control))
  }

  function PhysicsLane(p: Parameters, lane: Lane): Lane {
    var c := lane.candidate;
    if !c.active then lane
    else lane.(candidate := c.(state := p.advance(c.state, lane.tick)))
  }

  function EvaluateLane(p: Parameters, slot: nat, events: seq<Event>, incumbent: Sample, tickIndex: nat,
                        lane: Lane): Lane
  {
    var c := lane.candidate;
    var time := p.PublicTime(tickIndex);
    if !c.active || time < p.evaluationStartTimeMs then lane
    else if p.hasCondition && !p.condition(c.state, p.Iteration(slot)) then
      lane.(candidate := c.(evaluationIndex := c.evaluationIndex + 1, active := !c.state.raceCompleted))
    else if p.kind.ScriptedKind? then
      var updated := p.UpdateScripted(c.state, slot, time, c.best);
      var stored := if updated.None? then c
                    else c.(best := p.Stamp(slot, |events|, c.evaluationIndex, updated.value));
      lane.(candidate := stored.(evaluationIndex := c.evaluationIndex + 1))
    else
      var (raw, reported) := p.evaluate(c.state, lane.previousPosition, time - p.tickDurationMs, time, c.reported);
      var sample := p.Stamp(slot, |events|, c.evaluationIndex, raw);
      var kept := if StrictlyBetter(sample, c.best, MaximizesScore(p.kind)) then c.(best := sample) else c;
      var counted := kept.(reported := reported, evaluationIndex := c.evaluationIndex + 1);
      if StopsWhenReported(p.kind) && reported then lane.(candidate := counted.(active := false))
      else if p.Prunes(incumbent, tickIndex) then
        lane.(candidate := counted.(best := EMPTY_SAMPLE, active := false))
      else lane.(candidate := counted)
  }

  function StagedTick(p: Parameters, slot: nat, events: seq<Event>, incumbent: Sample, tickIndex: nat,
                      lane: Lane): Lane
    requires tickIndex < |p.baselineTicks|
  {
    var prepared := PrepareLane(p, events, tickIndex, lane);
    EvaluateLane(p, slot, events, incumbent, tickIndex, PhysicsLane(p, prepared))
  }

  function StagedRun(p: Parameters, slot: nat, events: seq<Event>, incumbent: Sample, lane: Lane,
                     from: nat, to: nat): Lane
    requires to <= |p.baselineTicks|
    decreases if from < to then to - from else 0
  {
    if from >= to then lane
    else StagedRun(p, slot, events, incumbent,
                   StagedTick(p, slot, events, incumbent, from, lane), from + 1, to)
  }

  // ----- Agreement

  /** The vehicle state that a tick evaluates. */
  ghost function StateAfter(p: Parameters, events: seq<Event>, tickIndex: nat, c: Candidate): VehicleState
    requires tickIndex < |p.baselineTicks|
  {
    var suffixTime := p.PublicTime(tickIndex) - p.mutableFromTimeMs;
    p.advance(c.state, ControlTick(p, tickIndex, ApplyDue(p, events, suffixTime, c.cursor, c.control).1))
  }

  /** A tick gets as far as its evaluator. */
  ghost predicate Evaluates(p: Parameters, slot: nat, events: seq<Event>, tickIndex: nat, c: Candidate)
    requires tickIndex < |p.baselineTicks|
  {
    && p.PublicTime(tickIndex) >= p.evaluationStartTimeMs
    && (p.hasCondition ==> p.condition(StateAfter(p, events, tickIndex, c), p.Iteration(slot)))
  }

  /** The fused kernel's scripted branch ends a candidate whose race is complete. */
  ghost predicate ScriptedExit(p: Parameters, slot: nat, events: seq<Event>, tickIndex: nat, c: Candidate)
    requires tickIndex < |p.baselineTicks|
  {
    && p.kind.ScriptedKind?
    && c.active
    && Evaluates(p, slot, events, tickIndex, c)
    && StateAfter(p, events, tickIndex, c).raceCompleted
  }

  /** Some tick of the fused run takes the scripted exit. */
  ghost predicate TakesScriptedExit(p: Parameters, slot: nat, events: seq<Event>, incumbent: Sample, c: Candidate,
                                    from: nat, to: nat)
    requires to <= |p.baselineTicks|
    decreases if from < to then to - from else 0
  {
    && from < to
    && c.active
    && (ScriptedExit(p, slot, events, from, c) ||
        TakesScriptedExit(p, slot, events, incumbent, FusedTick(p, slot, events, incumbent, from, c), from + 1, to))
  }

  /** Exactly one branch separates the two forms of a tick. */
  lemma {:induction false} StagedTickAgreesIff(p: Parameters, slot: nat, events: seq<Event>, incumbent: Sample,
                                               tickIndex: nat, lane: Lane)
    requires tickIndex < |p.baselineTicks|
    ensures StagedTick(p, slot, events, incumbent, tickIndex, lane).candidate ==
            (if lane.candidate.active then FusedTick(p, slot, events, incumbent, tickIndex, lane.candidate)
             else lane.candidate)
            <==> !ScriptedExit(p, slot, events, tickIndex, lane.candidate)
  {
    var c := lane.candidate;
    if c.active {
      var physics := PhysicsLane(p, PrepareLane(p, events, tickIndex, lane)).candidate;
      var fused := FusedTick(p, slot, events, incumbent, tickIndex, c);
      var staged := StagedTick(p, slot, events, incumbent, tickIndex, lane).candidate;
      assert physics.active && staged.state == fused.state == physics.state;
      if ScriptedExit(p, slot, events, tickIndex, c) {
        assert staged.active && !fused.active;
      }
    }
  }

  /** A scripted search of one tick whose physics does nothing. */
  function IdleScripted(): Parameters {
    Parameters(1, 1, 1, 0, false, 0, 10, 0, 0, 0, ScriptedKind, false, [], 0, 0, [Tick(false, [], [], [])],
               (control, event, time) => control, control => [], (control, time) => [],
               (state, tick) => state, (state, iteration) => true,
               (state, previous, begin, end, reported) => (EMPTY_SAMPLE, false),
               (state, iteration) => (i => None))
  }

  /** A witness: a candidate whose race is complete goes on in the staged form only. */
  lemma {:induction false} StagedGoesOn(lane: Lane)
    requires lane.candidate.active && lane.candidate.state.raceCompleted
    ensures StagedTick(IdleScripted(), 0, [], EMPTY_SAMPLE, 0, lane).candidate.active
    ensures !FusedTick(IdleScripted(), 0, [], EMPTY_SAMPLE, 0, lane.candidate).active
    ensures ScriptedExit(IdleScripted(), 0, [], 0, lane.candidate)
  {
    var p := IdleScripted();
    assert PhysicsLane(p, PrepareLane(p, [], 0, lane)).candidate.active;
  }

  lemma {:induction false} InactiveStays(p: Parameters, slot: nat, events: seq<Event>, incumbent: Sample, lane: Lane,
                                         from: nat, to: nat)
    requires to <= |p.baselineTicks| && !lane.candidate.active
    ensures StagedRun(p, slot, events, incumbent, lane, from, to).candidate == lane.candidate
    decreases if from < to then to - from else 0
  {
    if from < to {
      InactiveStays(p, slot, events, incumbent, StagedTick(p, slot, events, incumbent, from, lane), from + 1, to);
    }
  }

  /** A staged tick that ends a candidate has counted an evaluation. */
  lemma {:induction false} StagedTickEnds(p: Parameters, slot: nat, events: seq<Event>, incumbent: Sample,
                                          tickIndex: nat, lane: Lane)
    requires tickIndex < |p.baselineTicks| && lane.candidate.active
    ensures var next := StagedTick(p, slot, events, incumbent, tickIndex, lane).candidate;
            && next.evaluationIndex >= lane.candidate.evaluationIndex
            && (next.active || next.evaluationIndex > lane.candidate.evaluationIndex)
  {
    var physics := PhysicsLane(p, PrepareLane(p, events, tickIndex, lane)).candidate;
    assert physics.active && physics.evaluationIndex == lane.candidate.evaluationIndex;
  }

  /** A candidate that is active at some tick is later still active or has counted an evaluation. */
  lemma {:induction false} ActiveOrCounted(p: Parameters, slot: nat, events: seq<Event>, incumbent: Sample,
                                           lane: Lane, from: nat, to: nat)
    requires to <= |p.baselineTicks| && lane.candidate.active
    ensures var last := StagedRun(p, slot, events, incumbent, lane, from, to).candidate;
            last.active || last.evaluationIndex > lane.candidate.evaluationIndex
    decreases if from < to then to - from else 0
  {
    if from < to {
      var next := StagedTick(p, slot, events, incumbent, from, lane);
      StagedTickEnds(p, slot, events, incumbent, from, lane);
      if next.candidate.active {
        ActiveOrCounted(p, slot, events, incumbent, next, from + 1, to);
      } else {
        InactiveStays(p, slot, events, incumbent, next, from + 1, to);
      }
    }
  }

  /** After a scripted exit of the fused run the staged run never looks like it again. */
  lemma {:induction false} ExitSeparatesRuns(p: Parameters, slot: nat, events: seq<Event>, incumbent: Sample,
                                             lane: Lane, from: nat, to: nat)
    requires from < to <= |p.baselineTicks| && ScriptedExit(p, slot, events, from, lane.candidate)
    ensures StagedRun(p, slot, events, incumbent, lane, from, to).candidate !=
            FusedRun(p, slot, events, incumbent, lane.candidate, from, to)
  {
    var c, next := lane.candidate, StagedTick(p, slot, events, incumbent, from, lane);
    var physics := PhysicsLane(p, PrepareLane(p, events, from, lane)).candidate;
    assert physics.active && physics.state == StateAfter(p, events, from, c);
    var fused := FusedTick(p, slot, events, incumbent, from, c);
    assert next.candidate.active && next.candidate.evaluationIndex == c.evaluationIndex + 1;
    assert !fused.active && fused.evaluationIndex == c.evaluationIndex + 1;
    ActiveOrCounted(p, slot, events, incumbent, next, from + 1, to);
  }

  /** MAIN RESULT.  For every evaluator and over any span of ticks the staged pipeline leaves a candidate
      exactly as the fused kernel does if and only if no tick of the fused run takes the scripted exit. */
  lemma {:induction false} StagedRunEqualsFusedRunIff(p: Parameters, slot: nat, events: seq<Event>,
                                                      incumbent: Sample, lane: Lane, from: nat, to: nat)
    requires to <= |p.baselineTicks|
    ensures StagedRun(p, slot, events, incumbent, lane, from, to).candidate ==
            FusedRun(p, slot, events, incumbent, lane.candidate, from, to)
            <==> !TakesScriptedExit(p, slot, events, incumbent, lane.candidate, from, to)
    decreases if from < to then to - from else 0
  {
    if !lane.candidate.active {
      InactiveStays(p, slot, events, incumbent, lane, from, to);
    } else if from < to {
      if ScriptedExit(p, slot, events, from, lane.candidate) {
        ExitSeparatesRuns(p, slot, events, incumbent, lane, from, to);
      } else {
        StagedTickAgreesIff(p, slot, events, incumbent, from, lane);
        StagedRunEqualsFusedRunIff(p, slot, events, incumbent,
                                   StagedTick(p, slot, events, incumbent, from, lane), from + 1, to);
      }
    }
  }

  /** Searches that are not scripted never take the scripted exit. */
  lemma {:induction false} OnlyScriptedExits(p: Parameters, slot: nat, events: seq<Event>, incumbent: Sample,
                                             c: Candidate, from: nat, to: nat)
    requires to <= |p.baselineTicks| && TakesScriptedExit(p, slot, events, incumbent, c, from, to)
    ensures p.kind.ScriptedKind?
    decreases if from < to then to - from else 0
  {
    if !ScriptedExit(p, slot, events, from, c) {
      OnlyScriptedExits(p, slot, events, incumbent, FusedTick(p, slot, events, incumbent, from, c), from + 1, to);
    }
  }

  lemma {:induction false} FusedRunComposes(p: Parameters, slot: nat, events: seq<Event>, incumbent: Sample,
                                            c: Candidate, from: nat, middle: nat, to: nat)
    requires from <= middle <= to <= |p.baselineTicks|
    ensures FusedRun(p, slot, events, incumbent, FusedRun(p, slot, events, incumbent, c, from, middle), middle, to)
            == FusedRun(p, slot, events, incumbent, c, from, to)
    decreases middle - from
  {
    if from < middle && c.active {
      FusedRunComposes(p, slot, events, incumbent, FusedTick(p, slot, events, incumbent, from, c),
                       from + 1, middle, to);
    }
  }

  /** Where a chunk that starts at base with the given length ends. */
  function ChunkEnd(p: Parameters, base: nat, length: nat): nat {
    if base + length <= p.timelineTickCount then base + length else p.timelineTickCount
  }

  /** The fused kernel dispatched once per chunk, over consecutive chunks of any lengths. */
  function FusedChunks(p: Parameters, slot: nat, events: seq<Event>, incumbent: Sample, c: Candidate,
                       base: nat, chunks: seq<nat>): Candidate
    requires p.Valid()
    decreases |chunks|
  {
    if chunks == [] then c
    else
      var end := ChunkEnd(p, base, chunks[0]);
      var next := FusedRun(p, slot, events, incumbent, c, base, end);
      FusedChunks(p, slot, events, incumbent, next, base + chunks[0], chunks[1..])
  }

  function Sum(chunks: seq<nat>): nat {
    if chunks == [] then 0 else chunks[0] + Sum(chunks[1..])
  }

  /** However the timeline is cut into consecutive chunks, the result is one uncut run. */
  lemma {:induction false} ChunksEqualOneRun(p: Parameters, slot: nat, events: seq<Event>, incumbent: Sample,
                                             c: Candidate, base: nat, chunks: seq<nat>)
    requires p.Valid()
    ensures FusedChunks(p, slot, events, incumbent, c, base, chunks) ==
            FusedRun(p, slot, events, incumbent, c, base, ChunkEnd(p, base, Sum(chunks)))
    decreases |chunks|
  {
    if chunks != [] {
      var end := ChunkEnd(p, base, chunks[0]);
      var next := FusedRun(p, slot, events, incumbent, c, base, end);
      ChunksEqualOneRun(p, slot, events, incumbent, next, base + chunks[0], chunks[1..]);
      var last := ChunkEnd(p, base, Sum(chunks));
      if base <= end {
        FusedRunComposes(p, slot, events, incumbent, c, base, end, last);
      }
    }
  }

  // ----- Emitted samples

  /** The sample a tick offers to the candidate's running best, if it gets that far. */
  ghost function TickSamples(p: Parameters, slot: nat, events: seq<Event>, tickIndex: nat, c: Candidate)
    : seq<Sample>
    requires tickIndex < |p.baselineTicks|
  {
    var time := p.PublicTime(tickIndex);
    if !Evaluates(p, slot, events, tickIndex, c) then []
    else
      var raw := p.evaluate(StateAfter(p, events, tickIndex, c), c.state.position, time - p.tickDurationMs, time,
                            c.reported).0;
      [p.Stamp(slot, |events|, c.evaluationIndex, raw)]
  }

  ghost function Emitted(p: Parameters, slot: nat, events: seq<Event>, incumbent: Sample, c: Candidate,
                         from: nat, to: nat): seq<Sample>
    requires to <= |p.baselineTicks|
    decreases if from < to then to - from else 0
  {
    if from >= to || !c.active then []
    else
      TickSamples(p, slot, events, from, c) +
      Emitted(p, slot, events, incumbent, FusedTick(p, slot, events, incumbent, from, c), from + 1, to)
  }

  /** Neither scripted merging nor the finish-time prune interferes with the running best. */
  ghost predicate PlainSelection(p: Parameters, incumbent: Sample) {
    !p.kind.ScriptedKind? && !(p.kind.FinishTime? && incumbent.preciseFinish)
  }

  /** The number of ticks in from..to at which evaluation has started. */
  ghost function EvaluationTicks(p: Parameters, from: nat, to: nat): nat
    decreases if from < to then to - from else 0
  {
    if from >= to then 0
    else (if p.PublicTime(from) < p.evaluationStartTimeMs then 0 else 1) + EvaluationTicks(p, from + 1, to)
  }

  /** What a tick of a plain search does to the running best and to the evaluation index. */
  lemma {:induction false} TickEffect(p: Parameters, slot: nat, events: seq<Event>, incumbent: Sample,
                                      tickIndex: nat, c: Candidate)
    requires tickIndex < |p.baselineTicks| && !p.kind.ScriptedKind?
    ensures var next, samples := FusedTick(p, slot, events, incumbent, tickIndex, c),
                                 TickSamples(p, slot, events, tickIndex, c);
            && |samples| <= 1
            && c.evaluationIndex <= next.evaluationIndex
            && next.evaluationIndex <= c.evaluationIndex + EvaluationTicks(p, tickIndex, tickIndex + 1)
            && (samples == [] && PlainSelection(p, incumbent) ==> next.best == c.best)
            && (samples != [] ==>
                  && next.evaluationIndex == c.evaluationIndex + 1
                  && samples[0].evaluationTick == c.evaluationIndex
                  && samples[0].logicalOrder == 1 + slot * p.evaluationTickCount + c.evaluationIndex
                  && (PlainSelection(p, incumbent) ==>
                        next.best == Pick(Scalar(MaximizesScore(p.kind)), c.best, samples[0])))
  {
    assert EvaluationTicks(p, tickIndex + 1, tickIndex + 1) == 0;
  }

  /** The running best of a whole run is the first-wins scan of everything the run emits. */
  lemma {:induction false} BestIsScan(p: Parameters, slot: nat, events: seq<Event>, incumbent: Sample,
                                      c: Candidate, from: nat, to: nat)
    requires to <= |p.baselineTicks| && PlainSelection(p, incumbent)
    ensures FusedRun(p, slot, events, incumbent, c, from, to).best ==
            Scan(Scalar(MaximizesScore(p.kind)), c.best, Emitted(p, slot, events, incumbent, c, from, to))
    decreases if from < to then to - from else 0
  {
    if from < to && c.active {
      var next := FusedTick(p, slot, events, incumbent, from, c);
      var order, samples := Scalar(MaximizesScore(p.kind)), TickSamples(p, slot, events, from, c);
      TickEffect(p, slot, events, incumbent, from, c);
      if samples != [] {
        assert samples == [] + [samples[0]];
        ScanAppend(order, c.best, [], samples[0]);
      }
      BestIsScan(p, slot, events, incumbent, next, from + 1, to);
      ScanConcat(order, c.best, samples,
                 Emitted(p, slot, events, incumbent, next, from + 1, to));
    }
  }

  /** Emitted samples carry increasing evaluation ticks that stay below the evaluation tick count,
      and logical orders that follow from them. */
  lemma {:induction false} EmittedIsStamped(p: Parameters, slot: nat, events: seq<Event>, incumbent: Sample,
                                            c: Candidate, from: nat, to: nat)
    requires to <= |p.baselineTicks| && !p.kind.ScriptedKind?
    requires c.evaluationIndex + EvaluationTicks(p, from, to) <= p.evaluationTickCount
    ensures Stamped(slot, p.evaluationTickCount, Emitted(p, slot, events, incumbent, c, from, to))
    ensures forall x :: x in Emitted(p, slot, events, incumbent, c, from, to) ==>
              x.evaluationTick >= c.evaluationIndex
    decreases if from < to then to - from else 0
  {
    if from < to && c.active {
      var next := FusedTick(p, slot, events, incumbent, from, c);
      TickEffect(p, slot, events, incumbent, from, c);
      assert EvaluationTicks(p, from, from + 1) + EvaluationTicks(p, from + 1, to) == EvaluationTicks(p, from, to);
      EmittedIsStamped(p, slot, events, incumbent, next, from + 1, to);
      StampedInFront(slot, p.evaluationTickCount, TickSamples(p, slot, events, from, c),
                     Emitted(p, slot, events, incumbent, next, from + 1, to));
    }
  }

  lemma {:induction false} StampedInFront(slot: nat, evaluationTickCount: nat, first: seq<Sample>, rest: seq<Sample>)
    requires |first| <= 1 && Stamped(slot, evaluationTickCount, rest)
    requires first != [] ==>
               && first[0].evaluationTick < evaluationTickCount
               && first[0].logicalOrder == 1 + slot * evaluationTickCount + first[0].evaluationTick
               && forall x :: x in rest ==> first[0].evaluationTick < x.evaluationTick
    ensures Stamped(slot, evaluationTickCount, first + rest)
  {
  }

  // ----- Scripted runs

  /** The scores that a tick merges into a scripted candidate's sample, if it gets that far. */
  ghost function TickVectors(p: Parameters, slot: nat, events: seq<Event>, tickIndex: nat, c: Candidate)
    : seq<seq<Float>>
    requires tickIndex < |p.baselineTicks|
  {
    var expression := p.expression(StateAfter(p, events, tickIndex, c), p.Iteration(slot));
    if Evaluates(p, slot, events, tickIndex, c) && AllUsable(p.goals, expression) then
      [TickScores(p.goals, expression)]
    else []
  }

  /** The scores that the ticks of a run merge, behind those merged before. */
  ghost function MergedVectors(p: Parameters, slot: nat, events: seq<Event>, incumbent: Sample, c: Candidate,
                               from: nat, to: nat, before: seq<seq<Float>>): seq<seq<Float>>
    requires to <= |p.baselineTicks|
    decreases if from < to then to - from else 0
  {
    if from >= to || !c.active then before
    else
      MergedVectors(p, slot, events, incumbent, FusedTick(p, slot, events, incumbent, from, c), from + 1, to,
                    before + TickVectors(p, slot, events, from, c))
  }

  lemma {:induction false} TickKeepsPeak(p: Parameters, slot: nat, events: seq<Event>, incumbent: Sample,
                                         tickIndex: nat, c: Candidate, before: seq<seq<Float>>)
    requires tickIndex < |p.baselineTicks| && p.kind.ScriptedKind? && IsPeak(p.goals, c.best, before)
    ensures IsPeak(p.goals, FusedTick(p, slot, events, incumbent, tickIndex, c).best,
                   before + TickVectors(p, slot, events, tickIndex, c))
  {
    var expression := p.expression(StateAfter(p, events, tickIndex, c), p.Iteration(slot));
    if TickVectors(p, slot, events, tickIndex, c) == [] {
      assert before + [] == before;
      assert FusedTick(p, slot, events, incumbent, tickIndex, c).best == c.best;
    } else {
      MergeKeepsPeak(p.goals, expression, p.PublicTime(tickIndex), c.best, before);
    }
  }

  /** The running best of a scripted run holds, objective by objective, the best score of all ticks whose
      objectives were usable; it is valid if there was such a tick. */
  lemma {:induction false} ScriptedBestIsPeak(p: Parameters, slot: nat, events: seq<Event>, incumbent: Sample,
                                              c: Candidate, from: nat, to: nat, before: seq<seq<Float>>)
    requires to <= |p.baselineTicks| && p.kind.ScriptedKind? && IsPeak(p.goals, c.best, before)
    ensures IsPeak(p.goals, FusedRun(p, slot, events, incumbent, c, from, to).best,
                   MergedVectors(p, slot, events, incumbent, c, from, to, before))
    decreases if from < to then to - from else 0
  {
    if from < to && c.active {
      TickKeepsPeak(p, slot, events, incumbent, from, c, before);
      ScriptedBestIsPeak(p, slot, events, incumbent, FusedTick(p, slot, events, incumbent, from, c), from + 1, to,
                         before + TickVectors(p, slot, events, from, c));
    }
  }

  /** What the evaluated ticks of a run read for the objectives, behind what was read before. */
  ghost function RunReadings(p: Parameters, slot: nat, events: seq<Event>, incumbent: Sample, c: Candidate,
                             from: nat, to: nat, before: seq<nat -> Option<Float>>): seq<nat -> Option<Float>>
    requires to <= |p.baselineTicks|
    decreases if from < to then to - from else 0
  {
    if from >= to || !c.active then before
    else
      var reading := p.expression(StateAfter(p, events, from, c), p.Iteration(slot));
      RunReadings(p, slot, events, incumbent, FusedTick(p, slot, events, incumbent, from, c), from + 1, to,
                  if Evaluates(p, slot, events, from, c) then before + [reading] else before)
  }

  /** MAIN RESULT.  For every Minimize objective the running best of a scripted run stores the least value of
      all usable ticks, for every Maximize objective the greatest, for every Approach objective the nearest. */
  lemma {:induction false} ScriptedBestStoresValues(p: Parameters, slot: nat, events: seq<Event>, incumbent: Sample,
                                                    c: Candidate, from: nat, to: nat,
                                                    before: seq<nat -> Option<Float>>)
    requires to <= |p.baselineTicks| && p.kind.ScriptedKind? && StoresBest(p.goals, c.best, before)
    ensures StoresBest(p.goals, FusedRun(p, slot, events, incumbent, c, from, to).best,
                       RunReadings(p, slot, events, incumbent, c, from, to, before))
    decreases if from < to then to - from else 0
  {
    if from < to && c.active {
      var reading := p.expression(StateAfter(p, events, from, c), p.Iteration(slot));
      var evaluates := Evaluates(p, slot, events, from, c);
      if evaluates {
        MergeStoresBest(p.goals, reading, p.PublicTime(from), c.best, before);
      }
      ScriptedBestStoresValues(p, slot, events, incumbent, FusedTick(p, slot, events, incumbent, from, c), from + 1,
                               to, if evaluates then before + [reading] else before);
    }
  }

  // ----- Batches

  /** The branch state under a slot's own candidate id, with a fresh scratch. */
  function InitialState(p: Parameters, slot: nat, branchState: VehicleState): VehicleState {
    branchState.(candidateId := (p.firstCandidateId + slot) % WORDS,
                 scratch := Scratch(slot, p.scratchStride, p.shapeCapacity, true, []))
  }

  /** The candidate that initialisation leaves in a slot. */
  function InitialCandidate(p: Parameters, slot: nat, branchState: VehicleState, boundary: ControlState,
                            active: bool): Candidate
  {
    Candidate(InitialState(p, slot, branchState), boundary, 0, active, false, 0, EMPTY_SAMPLE)
  }

  /** Before its first tick a candidate has the branch state under its own id, wrapped to 32 bits, and the
      boundary controls; it has applied no event, reported nothing and has no best. */
  lemma {:induction false} InitialIsFresh(p: Parameters, slot: nat, branchState: VehicleState, boundary: ControlState,
                                          active: bool)
    ensures var c := InitialCandidate(p, slot, branchState, boundary, active);
            && c.state.position == branchState.position && c.state.words == branchState.words
            && c.state.raceCompleted == branchState.raceCompleted
            && (c.state.candidateId - p.firstCandidateId - slot) % 0x1_0000_0000 == 0
            && c.state.scratch.slot == slot && c.state.scratch.words == []
            && c.control == boundary && c.cursor == 0 && c.active == active
            && !c.reported && c.evaluationIndex == 0 && !c.best.valid
  {
    var id := p.firstCandidateId + slot;
    assert id == id / WORDS * WORDS + id % WORDS;
    assert id % WORDS - id == -(id / WORDS) * 0x1_0000_0000;
  }

  /** Everything that a batch emits, slot by slot. */
  ghost function BatchEmitted(p: Parameters, incumbent: Sample, initial: seq<Candidate>,
                              events: seq<seq<Event>>): seq<seq<Sample>>
    requires p.Valid() && |initial| == |events|
  {
    seq(|initial|, slot requires 0 <= slot < |initial| =>
      Emitted(p, slot, events[slot], incumbent, initial[slot], 0, p.timelineTickCount))
  }

  /** The bests that a batch hands to the reduction. */
  ghost function BatchBests(p: Parameters, incumbent: Sample, initial: seq<Candidate>,
                            events: seq<seq<Event>>): seq<Sample>
    requires p.Valid() && |initial| == |events|
  {
    seq(|initial|, slot requires 0 <= slot < |initial| =>
      FusedRun(p, slot, events[slot], incumbent, initial[slot], 0, p.timelineTickCount).best)
  }

  /** MAIN RESULT.  Unless a slot hides a score behind a NaN, simulating every slot and reducing the slot bests
      selects the sample that one scan of all emitted samples in increasing logical order would select. */
  lemma {:induction false} BatchWinnerIsFlatScan(p: Parameters, incumbent: Sample, initial: seq<Candidate>,
                              events: seq<seq<Event>>, flat: seq<Sample>)
    requires p.Valid() && |initial| == |events| && PlainSelection(p, incumbent)
    requires forall slot :: 0 <= slot < |initial| ==>
               initial[slot].evaluationIndex == 0 && initial[slot].best == EMPTY_SAMPLE
    requires EvaluationTicks(p, 0, p.timelineTickCount) <= p.evaluationTickCount
    requires NoneHides(BatchEmitted(p, incumbent, initial, events))
    requires multiset(flat) == multiset(Flatten(BatchEmitted(p, incumbent, initial, events)))
    requires Increasing(flat)
    ensures Scan(Scalar(MaximizesScore(p.kind)), incumbent, BatchBests(p, incumbent, initial, events)) ==
            Scan(Scalar(MaximizesScore(p.kind)), incumbent, flat)
  {
    var order, emitted := Scalar(MaximizesScore(p.kind)), BatchEmitted(p, incumbent, initial, events);
    forall slot | 0 <= slot < |initial|
      ensures Stamped(slot, p.evaluationTickCount, emitted[slot])
      ensures BatchBests(p, incumbent, initial, events)[slot] == Scan(order, EMPTY_SAMPLE, emitted[slot])
    {
      EmittedIsStamped(p, slot, events[slot], incumbent, initial[slot], 0, p.timelineTickCount);
      BestIsScan(p, slot, events[slot], incumbent, initial[slot], 0, p.timelineTickCount);
    }
    assert BatchBests(p, incumbent, initial, events) == SlotBests(order, emitted);
    TwoLevelEqualsFlatScan(MaximizesScore(p.kind), incumbent, emitted, p.evaluationTickCount, flat);
  }

  /** A velocity search of two ticks whose first score is NaN. */
  function NaNThenFive(): Parameters {
    Parameters(1, 2, 2, 0, false, 0, 10, 0, 0, 0, Velocity, false, [], 0, 0,
               [Tick(false, [], [], []), Tick(false, [], [], [])],
               (control, event, time) => control, control => [], (control, time) => [],
               (state, tick) => state, (state, iteration) => true,
               (state, previous, begin, end, reported) =>
                 (EMPTY_SAMPLE.(valid := true, score := if begin == 0 then NaN else Num(5.0)), false),
               (state, iteration) => (i => None))
  }

  lemma {:induction false} NaNIsEmittedFirst(incumbent: Sample, c: Candidate)
    requires c.active
    ensures var emitted := Emitted(NaNThenFive(), 0, [], incumbent, c, 0, 2);
            |emitted| == 2 && IsNaN(emitted[0]) && emitted[1].valid && emitted[1].score == Num(5.0)
    ensures Hides(Emitted(NaNThenFive(), 0, [], incumbent, c, 0, 2))
  {
    var p := NaNThenFive();
    var next := FusedTick(p, 0, [], incumbent, 0, c);
    assert TickSamples(p, 0, [], 0, c)[0].score == NaN && next.active;
    assert TickSamples(p, 0, [], 1, next)[0].score == Num(5.0);
    var last := FusedTick(p, 0, [], incumbent, 1, next);
    assert Emitted(p, 0, [], incumbent, last, 2, 2) == [];
    assert Emitted(p, 0, [], incumbent, next, 1, 2) == TickSamples(p, 0, [], 1, next) + [];
  }

  /** A witness: no finite check stops a NaN score, and the batch keeps an incumbent that a later sample of
      the slot beats. */
  lemma {:induction false} NaNHidesInBatch(incumbent: Sample, c: Candidate)
    requires incumbent.valid && incumbent.score == Num(1.0) && c.active && c.best == EMPTY_SAMPLE
    ensures Scan(Scalar(true), incumbent, BatchBests(NaNThenFive(), incumbent, [c], [[]])) == incumbent
    ensures Scan(Scalar(true), incumbent, Flatten(BatchEmitted(NaNThenFive(), incumbent, [c], [[]]))) != incumbent
  {
    var p, order := NaNThenFive(), Scalar(true);
    var emitted := Emitted(p, 0, [], incumbent, c, 0, 2);
    NaNIsEmittedFirst(incumbent, c);
    NaNStays(true, emitted);
    BestIsScan(p, 0, [], incumbent, c, 0, 2);
    var best := FusedRun(p, 0, [], incumbent, c, 0, 2).best;
    assert BatchBests(p, incumbent, [c], [[]]) == [] + [best];
    ScanAppend(order, incumbent, [], best);
    assert BatchEmitted(p, incumbent, [c], [[]]) == [emitted] && [emitted][..0] == [];
    assert Flatten([emitted]) == [] + emitted == emitted;
    BeatenIsReplaced(true, incumbent, emitted, 1);
  }

  /** MAIN RESULT.  In a scripted search the reduction's winner is dominated neither by the incumbent nor by
      any slot's best, and it is the incumbent or dominates it.  Every slot's best holds the peaks of its
      run, and no score that the reduction compares is NaN. */
  lemma {:induction false} ScriptedWinnerIsMaximal(p: Parameters, incumbent: Sample, initial: seq<Candidate>,
                                                   events: seq<seq<Event>>)
    requires p.Valid() && |initial| == |events| && p.kind.ScriptedKind? && Ranked(Scripted, incumbent)
    requires forall slot :: 0 <= slot < |initial| ==> initial[slot].best == EMPTY_SAMPLE
    ensures var bests := BatchBests(p, incumbent, initial, events);
            var winner := Scan(Scripted, incumbent, bests);
            && (forall slot :: 0 <= slot < |initial| ==>
                  IsPeak(p.goals, bests[slot], MergedVectors(p, slot, events[slot], incumbent, initial[slot], 0,
                                                             p.timelineTickCount, [])))
            && AllRanked(Scripted, bests) && Ranked(Scripted, winner)
            && (winner == incumbent || (winner in bests && Better(Scripted, winner, incumbent)))
            && !Better(Scripted, incumbent, winner)
            && (forall x :: x in bests ==> !Better(Scripted, x, winner))
  {
    var bests := BatchBests(p, incumbent, initial, events);
    forall slot | 0 <= slot < |initial|
      ensures IsPeak(p.goals, bests[slot], MergedVectors(p, slot, events[slot], incumbent, initial[slot], 0,
                                                         p.timelineTickCount, []))
      ensures Ranked(Scripted, bests[slot])
    {
      var merged := MergedVectors(p, slot, events[slot], incumbent, initial[slot], 0, p.timelineTickCount, []);
      ScriptedBestIsPeak(p, slot, events[slot], incumbent, initial[slot], 0, p.timelineTickCount, []);
      PeakIsRanked(p.goals, bests[slot], merged);
    }
    ScanIsMaximal(Scripted, incumbent, bests);
    ScanStaysRanked(Scripted, incumbent, bests);
  }
}

/** Refinement of a finish time to one nanosecond by bisection.  Times are exact reals, the
    substep is an uninterpreted probe, and the cast of a partial step to single precision is an
    arbitrary function. */
module FinishProbe {
  import opened Arithmetic

  const NANOSECONDS: real := 1000000000.0

  /** The public estimate: the finish lies in (lowerBoundNs, upperBoundNs]. */
  datatype FinishTimeEstimate = FinishTimeEstimate(lowerBoundNs: nat, upperBoundNs: nat, estimatedNs: nat) {
    predicate IsValid() {
      lowerBoundNs < upperBoundNs && upperBoundNs - lowerBoundNs <= 1 && estimatedNs == upperBoundNs
    }
  }

  datatype ProbeOutcome = Unfinished | Finished | Failed(detail: nat)

  datatype Refinement =
    | Refined(estimate: FinishTimeEstimate)
    | Rejected // failure detail 900000002
    | StepFailed(detail: nat)

  function Floor(x: real): (n: nat)
    requires 0.0 <= x
    ensures n as real <= x < n as real + 1.0
  {
    x.Floor
  }

  function Ceiling(x: real): (n: nat)
    requires 0.0 <= x
    ensures n as real - 1.0 < x <= n as real
  {
    -((-x).Floor)
  }

  /** A finish-refinement job: the substep starts at start nanoseconds and lasts fullDt seconds. */
  datatype Job = Job(start: real, fullDt: real, round: real -> real, probe: real -> ProbeOutcome) {
    predicate Valid() {
      0.0 <= start && 0.0 <= start + fullDt * NANOSECONDS
    }

    function End(): real {
      start + fullDt * NANOSECONDS
    }

    function First(): nat
      requires Valid()
    {
      Floor(start)
    }

    function Last(): nat
      requires Valid()
    {
      Ceiling(End())
    }

    function PartialDt(ns: nat): real {
      round((ns as real - start) / NANOSECONDS)
    }

    /** What the kernel learns at a whole nanosecond; a partial step that is not positive is not
        simulated and counts as unfinished. */
    function Seen(ns: nat): ProbeOutcome {
      if PartialDt(ns) > 0.0 then probe(PartialDt(ns)) else Unfinished
    }

    /** Finished at a whole nanosecond, given that the full substep finishes and its start does not. */
    predicate FinishedBy(ns: nat)
      requires Valid()
    {
      ns >= Last() || (ns > First() && Seen(ns).Finished?)
    }

    ghost predicate Monotone()
      requires Valid()
    {
      forall a: nat, b: nat :: First() < a <= b < Last() && Seen(a).Finished? ==> Seen(b).Finished?
    }

    ghost predicate StepsSucceed()
      requires Valid()
    {
      forall ns: nat :: First() < ns < Last() ==> !Seen(ns).Failed?
    }
  }

  /** The bounds bracket the finish: unfinished at lower, finished at upper. */
  ghost predicate Brackets(job: Job, lower: nat, upper: nat)
    requires job.Valid()
  {
    && job.First() <= lower
    && upper <= job.Last()
    && (lower == job.First() || job.Seen(lower).Unfinished?)
    && (upper == job.Last() || job.Seen(upper).Finished?)
  }

  /** ceil(log2 w) */
  function CeilLog2(w: nat): nat {
    if w <= 1 then 0 else 1 + CeilLog2((w + 1) / 2)
  }

  /** CeilLog2 is the least exponent whose power of two reaches w. */
  lemma {:induction false} CeilLog2IsLeast(w: nat)
    ensures w <= Pow2(CeilLog2(w))
    ensures w > 1 ==> Pow2(CeilLog2(w) - 1) < w
  {
    if w > 1 {
      CeilLog2IsLeast((w + 1) / 2);
      if w > 2 {
        assert Pow2(CeilLog2(w) - 1) == 2 * Pow2(CeilLog2((w + 1) / 2) - 1);
      }
    }
  }

  lemma {:induction false} CeilLog2Monotone(a: nat, b: nat)
    requires a <= b
    ensures CeilLog2(a) <= CeilLog2(b)
  {
    if a > 1 {
      CeilLog2Monotone((a + 1) / 2, (b + 1) / 2);
    }
  }

  /** A positive substep spans at least one whole nanosecond bound. */
  lemma {:induction false} PositiveSpan(job: Job)
    requires job.Valid() && job.fullDt > 0.0
    ensures job.First() < job.Last()
  {
    assert job.fullDt * NANOSECONDS > 0.0;
  }

  lemma {:induction false} WholeNanosecond(ns: nat)
    ensures Floor(ns as real) == ns && Ceiling(ns as real) == ns
  {
  }

  /** The whole nanosecond that the kernel probes between two bounds. */
  function Candidate(lower: nat, upper: nat): nat
    requires lower + 1 < upper
  {
    lower + 1 + (upper - 1 - (lower + 1)) / 2
  }

  /** Either choice of new bound leaves one bisection level less. */
  lemma {:induction false} CandidateHalves(lower: nat, upper: nat)
    requires lower + 1 < upper
    ensures lower < Candidate(lower, upper) < upper
    ensures 1 + CeilLog2(Candidate(lower, upper) - lower) <= CeilLog2(upper - lower)
    ensures 1 + CeilLog2(upper - Candidate(lower, upper)) <= CeilLog2(upper - lower)
  {
    CeilLog2Monotone(Candidate(lower, upper) - lower, (upper - lower + 1) / 2);
    CeilLog2Monotone(upper - Candidate(lower, upper), (upper - lower + 1) / 2);
  }

  /** What every iteration keeps. */
  ghost predicate Bisecting(job: Job, l: nat, u: nat, probes: nat)
    requires job.Valid()
  {
    if job.First() < job.Last() then
      && l < u
      && Brackets(job, l, u)
      && probes + CeilLog2(u - l) <= CeilLog2(job.Last() - job.First())
    else l == job.First() && u == job.Last() && probes == 0
  }

  lemma {:induction false} BisectStep(job: Job, l: nat, u: nat, probes: nat)
    requires job.Valid() && Bisecting(job, l, u, probes) && l + 1 < u
    ensures var c := Candidate(l, u);
            && l < c < u
            && (job.Seen(c).Finished? ==> Bisecting(job, l, c, probes + 1))
            && (job.Seen(c).Unfinished? ==> Bisecting(job, c, u, probes + 1))
            && (job.Seen(c).Failed? ==> !job.StepsSucceed())
  {
    CandidateHalves(l, u);
  }

  /** The partial substep from the saved pre-substep state. */
  method ProbeAt(job: Job, candidateNs: nat) returns (outcome: ProbeOutcome)
    ensures outcome == job.Seen(candidateNs)
  {
    var partialDt := job.round((candidateNs as real - job.start) / NANOSECONDS);
    if !(partialDt > 0.0) {
      return Unfinished;
    }
    outcome := job.probe(partialDt);
  }

  /** ExecuteVulkanFinishProbe.  The job is rejected exactly when the substep does not reach past
      the nanosecond it starts in; otherwise, unless a step fails, the bounds end 1 ns apart. */
  method ExecuteFinishProbe(job: Job) returns (result: Refinement, probes: nat)
    requires job.Valid()
    ensures job.First() < job.Last() ==> probes <= CeilLog2(job.Last() - job.First())
    ensures job.Last() <= job.First() ==> probes == 0
    ensures result.Rejected? <==> job.Last() <= job.First()
    ensures result.Refined? ==>
              && result.estimate.IsValid()
              && Brackets(job, result.estimate.lowerBoundNs, result.estimate.upperBoundNs)
    ensures result.StepFailed? ==> !job.StepsSucceed()
  {
    var lower, upper := job.start, job.End();
    probes := 0;
    ghost var l: int, u: int := job.First(), job.Last();
    while true
      invariant 0.0 <= lower && 0.0 <= upper && l == Floor(lower) && u == Ceiling(upper)
      invariant Bisecting(job, l, u, probes)
      decreases u - l
    {
      var intervalLower, intervalUpper := Floor(lower), Ceiling(upper);
      if intervalUpper >= intervalLower && intervalUpper - intervalLower <= 1 {
        break;
      }
      var firstInterior, upperCeiling := Floor(lower) + 1, Ceiling(upper);
      if upperCeiling == 0 || firstInterior >= upperCeiling {
        break;
      }
      var lastInterior := upperCeiling - 1;
      var candidateNs := firstInterior + (lastInterior - firstInterior) / 2;
      assert candidateNs == Candidate(l, u);
      BisectStep(job, l, u, probes);
      WholeNanosecond(candidateNs);
      probes := probes + 1;
      var outcome := ProbeAt(job, candidateNs);
      match outcome
      case Failed(detail) =>
        return StepFailed(detail), probes;
      case Finished =>
        upper := candidateNs as real;
        u := candidateNs;
      case Unfinished =>
        lower := candidateNs as real;
        l := candidateNs;
    }
    var lowerBoundNs, upperBoundNs := Floor(lower), Ceiling(upper);
    if lowerBoundNs >= upperBoundNs || upperBoundNs - lowerBoundNs > 1 {
      return Rejected, probes;
    }
    result := Refined(FinishTimeEstimate(lowerBoundNs, upperBoundNs, upperBoundNs));
  }

  /** MAIN RESULT.  For a monotone probe a bracket of one nanosecond names the least finished
      whole nanosecond. */
  lemma {:induction false} BracketIsLeastFinished(job: Job, estimate: FinishTimeEstimate)
    requires job.Valid() && job.Monotone()
    requires estimate.IsValid() && Brackets(job, estimate.lowerBoundNs, estimate.upperBoundNs)
    ensures forall ns: nat :: job.FinishedBy(ns) <==> ns >= estimate.estimatedNs
  {
    forall ns: nat
      ensures job.FinishedBy(ns) <==> ns >= estimate.estimatedNs
    {
      var seen := job.Seen(estimate.lowerBoundNs);
      assert job.First() < ns <= estimate.lowerBoundNs && job.Seen(ns).Finished? ==> seen.Finished?;
    }
  }

  /** Partial steps are not rounded, and the vehicle finishes at time t, in nanoseconds, of the substep. */
  ghost predicate FinishesAt(job: Job, t: real) {
    && job.start < t <= job.start + job.fullDt * 1000000000.0
    && (forall x :: job.round(x) == x)
    && (forall dt :: dt > 0.0 ==>
          job.probe(dt) == if t <= job.start + dt * 1000000000.0 then Finished else Unfinished)
  }

  /** The kernel probes the time that it reports: a bracket names the first whole nanosecond that is not
      before the finish. */
  lemma {:induction false} BracketHoldsFinish(job: Job, estimate: FinishTimeEstimate, t: real)
    requires job.Valid() && FinishesAt(job, t)
    requires estimate.IsValid() && Brackets(job, estimate.lowerBoundNs, estimate.upperBoundNs)
    ensures estimate.lowerBoundNs as real < t <= estimate.upperBoundNs as real
  {
    SeenAt(job, estimate.lowerBoundNs, t);
    SeenAt(job, estimate.upperBoundNs, t);
  }

  lemma {:induction false} SeenAt(job: Job, ns: nat, t: real)
    requires FinishesAt(job, t)
    ensures job.Seen(ns).Finished? <==> t <= ns as real
    ensures job.Seen(ns).Unfinished? <==> ns as real < t
  {
    var dt := (ns as real - job.start) / NANOSECONDS;
    assert dt * 1000000000.0 == ns as real - job.start;
    assert job.PartialDt(ns) == dt;
  }

  /** A positive substep whose steps succeed is always refined to a valid estimate, and for a
      monotone probe the estimate is the least finished whole nanosecond. */
  method RefineFinish(job: Job) returns (estimate: FinishTimeEstimate)
    requires job.Valid() && job.fullDt > 0.0 && job.StepsSucceed()
    ensures estimate.IsValid() && Brackets(job, estimate.lowerBoundNs, estimate.upperBoundNs)
    ensures job.Monotone() ==> forall ns: nat :: job.FinishedBy(ns) <==> ns >= estimate.estimatedNs
    ensures forall t :: FinishesAt(job, t) ==>
              estimate.estimatedNs as real - 1.0 < t <= estimate.estimatedNs as real
  {
    PositiveSpan(job);
    var result, probes := ExecuteFinishProbe(job);
    estimate := result.estimate;
    forall t | FinishesAt(job, t) ensures estimate.estimatedNs as real - 1.0 < t <= estimate.estimatedNs as real {
      BracketHoldsFinish(job, estimate, t);
    }
    if job.Monotone() {
      BracketIsLeastFinished(job, estimate);
    }
  }
}

/** Samples of the batch search and the two orders that choose winners among them. */
module SearchSamples {

  /** A binary64 score: finite values are exact reals, and NaN compares false with everything. */
  datatype Float = NaN | NegInf | Num(v: real) | PosInf

  predicate Less(a: Float, b: Float) {
    match (a, b)
    case (NaN, _) => false
    case (_, NaN) => false
    case (Num(x), Num(y)) => x < y
    case (NegInf, _) => b != NegInf
    case (_, PosInf) => a != PosInf
    case _ => false
  }

  /** IEEE inequality: true whenever an operand is NaN. */
  predicate Differs(a: Float, b: Float) {
    a.NaN? || b.NaN? || a != b
  }

  datatype Sample = Sample(
    valid: bool,
    score: Float,
    timeMs: Float,
    candidateId: nat,
    logicalOrder: nat,
    candidateSlot: nat,
    evaluationTick: nat,
    eventCount: nat,
    mutation: bool,
    preciseFinish: bool,
    objectiveCount: nat,
    objectives: Scores,
    metrics: Scores)

  /** One of a sample's two buffers of scripted values, zero where nothing has been written. */
  type Scores = map<nat, Float>

  function At(scores: Scores, i: nat): Float {
    if i in scores then scores[i] else Num(0.0)
  }

  /** The zero-initialised sample. */
  const EMPTY_SAMPLE := Sample(false, Num(0.0), Num(0.0), 0, 0, 0, 0, 0, false, false, 0, map[], map[])

  /** SearchStrictlyBetter */
  predicate StrictlyBetter(candidate: Sample, incumbent: Sample, maximize: bool) {
    if !candidate.valid then false
    else if !incumbent.valid then true
    else if Differs(candidate.score, incumbent.score) then
      if maximize then Less(incumbent.score, candidate.score) else Less(candidate.score, incumbent.score)
    else candidate.eventCount < incumbent.eventCount
  }

  /** Pareto dominance with equal, positive objective counts; any valid sample beats an
      invalid one. */
  ghost predicate Dominates(candidate: Sample, incumbent: Sample) {
    && candidate.valid
    && (incumbent.valid ==>
          var n := candidate.objectiveCount;
          && 0 < n == incumbent.objectiveCount
          && (forall i: nat :: i < n ==> !Less(At(candidate.objectives, i), At(incumbent.objectives, i)))
          && (exists i: nat :: i < n && Less(At(incumbent.objectives, i), At(candidate.objectives, i))))
  }

  /** SearchScriptedBetter: the objective loop with its early exit decides dominance. */
  method ScriptedBetter(candidate: Sample, incumbent: Sample) returns (better: bool)
    ensures better <==> Dominates(candidate, incumbent)
  {
    if !candidate.valid {
      return false;
    }
    if !incumbent.valid {
      return true;
    }
    if candidate.objectiveCount == 0 || candidate.objectiveCount != incumbent.objectiveCount {
      return false;
    }
    better := false;
    for i := 0 to candidate.objectiveCount
      invariant forall j: nat :: j < i ==> !Less(At(candidate.objectives, j), At(incumbent.objectives, j))
      invariant better <==> exists j: nat :: j < i && Less(At(incumbent.objectives, j), At(candidate.objectives, j))
    {
      if Less(At(candidate.objectives, i), At(incumbent.objectives, i)) {
        return false;
      }
      better := better || Less(At(incumbent.objectives, i), At(candidate.objectives, i));
    }
  }

  /** The order a reduction uses. */
  datatype Order = Scalar(maximize: bool) | Scripted

  ghost predicate Better(order: Order, candidate: Sample, incumbent: Sample) {
    match order
    case Scalar(maximize) => StrictlyBetter(candidate, incumbent, maximize)
    case Scripted => Dominates(candidate, incumbent)
  }

  /** A sample that the order can rank: the Pareto order needs objectives that are not NaN, the scalar order
      takes any score. */
  ghost predicate Ranked(order: Order, s: Sample) {
    match order
    case Scalar(_) => true
    case Scripted => s.valid ==> forall i: nat :: i < s.objectiveCount ==> !At(s.objectives, i).NaN?
  }

  ghost predicate AllRanked(order: Order, samples: seq<Sample>) {
    forall i :: 0 <= i < |samples| ==> Ranked(order, samples[i])
  }

  /** The scalar order is a strict partial order on all samples, the Pareto order on samples without NaN
      objectives, for any number of them. */
  lemma {:induction false} BetterIsStrictPartialOrder(order: Order, a: Sample, b: Sample, c: Sample)
    requires Ranked(order, a) && Ranked(order, b) && Ranked(order, c)
    ensures !Better(order, a, a)
    ensures Better(order, a, b) && Better(order, b, c) ==> Better(order, a, c)
  {
    if order.Scripted? && Better(order, a, b) && Better(order, b, c) && c.valid {
      var i: nat :| i < a.objectiveCount && Less(At(b.objectives, i), At(a.objectives, i));
      forall j: nat | j < a.objectiveCount
        ensures !Less(At(a.objectives, j), At(c.objectives, j))
      {
        assert !Less(At(a.objectives, j), At(b.objectives, j)) && !Less(At(b.objectives, j), At(c.objectives, j));
      }
      assert !Less(At(b.objectives, i), At(c.objectives, i));
      assert Less(At(c.objectives, i), At(a.objectives, i));
    }
  }

  /** A valid sample whose score is NaN. */
  predicate IsNaN(s: Sample) {
    s.valid && s.score.NaN?
  }

  /** The scalar order is moreover a weak order around any b whose score is not NaN: what cannot beat b
      cannot beat what b cannot beat. */
  lemma {:induction false} ScalarIsWeakOrder(maximize: bool, a: Sample, b: Sample, c: Sample)
    requires !IsNaN(b)
    ensures !StrictlyBetter(a, b, maximize) && !StrictlyBetter(b, c, maximize)
            ==> !StrictlyBetter(a, c, maximize)
  {
  }

  function WithObjectives(first: Float, second: Float): Sample {
    EMPTY_SAMPLE.(valid := true, objectiveCount := 2, objectives := map[0 := first, 1 := second])
  }

  /** Why the order needs its premise: a single NaN objective would make dominance intransitive.
      The sample update stores none. */
  lemma {:induction false} NaNBreaksDominance()
    ensures var a, b, c := WithObjectives(Num(2.0), Num(0.0)), WithObjectives(Num(1.0), NaN),
                           WithObjectives(Num(0.0), Num(5.0));
            Better(Scripted, a, b) && Better(Scripted, b, c) && !Better(Scripted, a, c)
  {
    var a, b, c := WithObjectives(Num(2.0), Num(0.0)), WithObjectives(Num(1.0), NaN),
                   WithObjectives(Num(0.0), Num(5.0));
    assert Less(At(b.objectives, 0), At(a.objectives, 0)) && Less(At(c.objectives, 0), At(b.objectives, 0));
    assert Less(At(a.objectives, 1), At(c.objectives, 1));
  }
}

/** How a scripted evaluator folds a tick into the running sample: one score per objective, none of
    them NaN or infinite, each kept if it is the best so far. */
module ScriptedMerge {
  import opened Common
  import opened SearchSamples

  datatype Goal = Minimize | Maximize | Approach(target: Float)

  function Negated(a: Float): Float {
    match a
    case NaN => NaN
    case NegInf => PosInf
    case PosInf => NegInf
    case Num(v) => Num(-v)
  }

  /** The distance of two doubles. */
  function Distance(a: Float, b: Float): Float {
    if a.NaN? || b.NaN? || (a == b && !a.Num?) then NaN
    else if a.Num? && b.Num? then Num(if a.v < b.v then b.v - a.v else a.v - b.v)
    else PosInf
  }

  /** The score of an objective; larger is better for every goal. */
  function ScoreOf(goal: Goal, value: Float): Float {
    match goal
    case Minimize => Negated(value)
    case Maximize => value
    case Approach(target) => Negated(Distance(value, target))
  }

  /** The value and the score of an objective exist and are finite. */
  predicate Usable(goal: Goal, value: Option<Float>) {
    value.Some? && value.value.Num? && ScoreOf(goal, value.value).Num?
  }

  predicate AllUsable(goals: seq<Goal>, expression: nat -> Option<Float>) {
    forall i: nat :: i < |goals| ==> Usable(goals[i], expression(i))
  }

  function TickScores(goals: seq<Goal>, expression: nat -> Option<Float>): (scores: seq<Float>)
    requires AllUsable(goals, expression)
    ensures |scores| == |goals| && forall i :: 0 <= i < |scores| ==> scores[i].Num?
  {
    seq(|goals|, i requires 0 <= i < |goals| => ScoreOf(goals[i], expression(i).value))
  }

  /** An objective of a tick replaces the sample's if there is none yet or the tick's is better. */
  predicate Improves(goals: seq<Goal>, expression: nat -> Option<Float>, best: Sample, i: nat)
    requires AllUsable(goals, expression) && i < |goals|
  {
    !best.valid || Less(At(best.objectives, i), TickScores(goals, expression)[i])
  }

  /** Both buffers once the first n objectives are merged. */
  function Merged(goals: seq<Goal>, expression: nat -> Option<Float>, best: Sample, n: nat): (Scores, Scores)
    requires AllUsable(goals, expression) && n <= |goals|
  {
    if n == 0 then (best.objectives, best.metrics)
    else
      var (scores, metrics) := Merged(goals, expression, best, n - 1);
      if Improves(goals, expression, best, n - 1) then
        (scores[n - 1 := TickScores(goals, expression)[n - 1]], metrics[n - 1 := expression(n - 1).value])
      else (scores, metrics)
  }

  lemma {:induction false} MergedAt(goals: seq<Goal>, expression: nat -> Option<Float>, best: Sample, n: nat, i: nat)
    requires AllUsable(goals, expression) && n <= |goals|
    ensures At(Merged(goals, expression, best, n).0, i) ==
            if i < n && Improves(goals, expression, best, i) then TickScores(goals, expression)[i]
            else At(best.objectives, i)
  {
    if n > 0 {
      MergedAt(goals, expression, best, n - 1, i);
    }
  }

  lemma {:induction false} MetricAt(goals: seq<Goal>, expression: nat -> Option<Float>, best: Sample, n: nat, i: nat)
    requires AllUsable(goals, expression) && n <= |goals|
    ensures At(Merged(goals, expression, best, n).1, i) ==
            if i < n && Improves(goals, expression, best, i) then expression(i).value else At(best.metrics, i)
  {
    if n > 0 {
      MetricAt(goals, expression, best, n - 1, i);
    }
  }

  /** The sample after a tick, or nothing if some objective is unusable. */
  function Merge(goals: seq<Goal>, expression: nat -> Option<Float>, timeMs: int, best: Sample): Option<Sample> {
    if !AllUsable(goals, expression) then None
    else
      var (scores, metrics) := Merged(goals, expression, best, |goals|);
      Some(best.(valid := true, score := At(scores, 0), timeMs := Num(timeMs as real),
                 objectiveCount := |goals|, objectives := scores, metrics := metrics))
  }

  /** The first loop: every value and every score, or nothing if one of them is unusable. */
  method ReadObjectives(goals: seq<Goal>, expression: nat -> Option<Float>)
    returns (usable: bool, values: seq<Float>, scores: seq<Float>)
    ensures usable == AllUsable(goals, expression)
    ensures usable ==> scores == TickScores(goals, expression) && |values| == |goals|
    ensures usable ==> forall i: nat :: i < |goals| ==> values[i] == expression(i).value
  {
    values, scores := [], [];
    for i := 0 to |goals|
      invariant |values| == |scores| == i
      invariant forall j: nat :: j < i ==>
        Usable(goals[j], expression(j)) && Some(values[j]) == expression(j) && scores[j] == ScoreOf(goals[j], values[j])
    {
      var value := expression(i);
      if value.None? || !value.value.Num? {
        return false, [], [];
      }
      var score := ScoreOf(goals[i], value.value);
      if !score.Num? {
        return false, [], [];
      }
      values, scores := values + [value.value], scores + [score];
    }
    usable := true;
  }

  /** UpdateScriptedSample: the objectives first, then the merge. */
  method UpdateScriptedSample(goals: seq<Goal>, expression: nat -> Option<Float>, timeMs: int, best: Sample)
    returns (updated: bool, sample: Sample)
    ensures updated == Merge(goals, expression, timeMs, best).Some?
    ensures sample == if updated then Merge(goals, expression, timeMs, best).value else best
    ensures forall readings :: StoresBest(goals, best, readings) ==>
              StoresBest(goals, sample, readings + [expression])
  {
    var usable, values, scores := ReadObjectives(goals, expression);
    MergesStoreBest(goals, expression, timeMs, best);
    if !usable {
      return false, best;
    }
    var objectives, metrics := best.objectives, best.metrics;
    for i := 0 to |goals|
      invariant (objectives, metrics) == Merged(goals, expression, best, i)
    {
      MergedAt(goals, expression, best, i, i);
      if !best.valid || Less(At(objectives, i), scores[i]) {
        objectives, metrics := objectives[i := scores[i]], metrics[i := values[i]];
      }
    }
    sample := best.(valid := true, objectiveCount := |goals|, score := At(objectives, 0),
                    timeMs := Num(timeMs as real), objectives := objectives, metrics := metrics);
    updated := true;
  }

  /** The sample holds, objective by objective, the best score of the ticks that were merged into it. */
  ghost predicate IsPeak(goals: seq<Goal>, best: Sample, merged: seq<seq<Float>>) {
    && (forall k :: 0 <= k < |merged| ==>
          |merged[k]| == |goals| && forall i: nat :: i < |goals| ==> merged[k][i].Num?)
    && best.valid == (merged != [])
    && (best.valid ==>
          && best.objectiveCount == |goals|
          && forall i: nat :: i < |goals| ==> PeakAt(At(best.objectives, i), merged, i))
  }

  /** A score is reached by some tick and exceeded by none. */
  ghost predicate PeakAt(score: Float, merged: seq<seq<Float>>, i: nat)
    requires forall k :: 0 <= k < |merged| ==> i < |merged[k]|
  {
    && (exists k :: 0 <= k < |merged| && merged[k][i] == score)
    && (forall k :: 0 <= k < |merged| ==> !Less(score, merged[k][i]))
  }

  /** A merge keeps the sample at the peak of everything merged so far. */
  lemma {:induction false} MergeKeepsPeak(goals: seq<Goal>, expression: nat -> Option<Float>, timeMs: int, best: Sample,
                                          merged: seq<seq<Float>>)
    requires IsPeak(goals, best, merged) && AllUsable(goals, expression)
    ensures IsPeak(goals, Merge(goals, expression, timeMs, best).value, merged + [TickScores(goals, expression)])
  {
    var next, all := Merge(goals, expression, timeMs, best).value, merged + [TickScores(goals, expression)];
    forall i: nat | i < |goals|
      ensures PeakAt(At(next.objectives, i), all, i)
    {
      MergedAt(goals, expression, best, |goals|, i);
      assert all[|merged|][i] == ScoreOf(goals[i], expression(i).value);
      if best.valid {
        assert PeakAt(At(best.objectives, i), merged, i);
        var k :| 0 <= k < |merged| && merged[k][i] == At(best.objectives, i);
        assert all[k][i] == At(best.objectives, i);
      }
    }
  }

  /** A sample at a peak can be ranked: the update stores no NaN. */
  lemma {:induction false} PeakIsRanked(goals: seq<Goal>, best: Sample, merged: seq<seq<Float>>)
    requires IsPeak(goals, best, merged)
    ensures Ranked(Scripted, best)
  {
    if best.valid {
      forall i: nat | i < |goals|
        ensures At(best.objectives, i).Num?
      {
        assert PeakAt(At(best.objectives, i), merged, i);
      }
    }
  }

  // ----- The values that a run stores

  /** What a tick reads for every objective is a finite number, and so is every target. */
  ghost predicate AllFinite(goals: seq<Goal>, reading: nat -> Option<Float>) {
    forall i: nat :: i < |goals| ==>
      reading(i).Some? && reading(i).value.Num? && (goals[i].Approach? ==> goals[i].target.Num?)
  }

  /** Value a serves a goal at least as well as value b. */
  ghost predicate NoWorse(goal: Goal, a: real, b: real) {
    match goal
    case Minimize => a <= b
    case Maximize => b <= a
    case Approach(target) =>
      target.Num? ==>
        (if a < target.v then target.v - a else a - target.v) <= (if b < target.v then target.v - b else b - target.v)
  }

  /** Some usable tick reads the value for an objective. */
  ghost predicate IsRead(goals: seq<Goal>, readings: seq<nat -> Option<Float>>, i: nat, value: Float) {
    exists k :: 0 <= k < |readings| && AllFinite(goals, readings[k]) && readings[k](i) == Some(value)
  }

  /** No usable tick reads a better value. */
  ghost predicate NoneBetter(goals: seq<Goal>, readings: seq<nat -> Option<Float>>, i: nat, value: real)
    requires i < |goals|
  {
    forall k :: 0 <= k < |readings| && AllFinite(goals, readings[k]) ==>
      NoWorse(goals[i], value, readings[k](i).value.v)
  }

  /** The score tells how good a value is; larger is better. */
  ghost predicate Tells(goal: Goal, score: Float, value: real) {
    match goal
    case Minimize => score == Num(-value)
    case Maximize => score == Num(value)
    case Approach(target) =>
      target.Num? && score == Num(if value < target.v then value - target.v else target.v - value)
  }

  /** A stored value is the best one of all usable ticks. */
  ghost predicate StoredAt(goals: seq<Goal>, sample: Sample, readings: seq<nat -> Option<Float>>, i: nat)
    requires i < |goals|
  {
    var stored := At(sample.metrics, i);
    && stored.Num?
    && IsRead(goals, readings, i, stored)
    && NoneBetter(goals, readings, i, stored.v)
    && Tells(goals[i], At(sample.objectives, i), stored.v)
  }

  /** For every objective the sample stores the least, greatest or nearest value of all ticks whose values
      are finite; it is valid if there is such a tick. */
  ghost predicate StoresBest(goals: seq<Goal>, sample: Sample, readings: seq<nat -> Option<Float>>) {
    && (sample.valid <==> exists k :: 0 <= k < |readings| && AllFinite(goals, readings[k]))
    && (sample.valid ==> forall i: nat :: i < |goals| ==> StoredAt(goals, sample, readings, i))
  }

  lemma {:induction false} UsableIsFinite(goals: seq<Goal>, reading: nat -> Option<Float>)
    ensures AllUsable(goals, reading) <==> AllFinite(goals, reading)
  {
    assert forall i: nat :: i < |goals| ==>
        (Usable(goals[i], reading(i)) <==>
         reading(i).Some? && reading(i).value.Num? && (goals[i].Approach? ==> goals[i].target.Num?));
  }

  lemma {:induction false} NoWorseByScore(goal: Goal, a: real, b: real, score: Float)
    requires (goal.Approach? ==> goal.target.Num?) && Tells(goal, score, b)
    ensures Tells(goal, ScoreOf(goal, Num(a)), a)
    ensures NoWorse(goal, b, a) <==> !Less(score, ScoreOf(goal, Num(a)))
    ensures NoWorse(goal, a, b) || NoWorse(goal, b, a)
  {
  }

  lemma {:induction false} StillRead(goals: seq<Goal>, readings: seq<nat -> Option<Float>>,
                                     reading: nat -> Option<Float>, i: nat, value: Float)
    ensures IsRead(goals, readings, i, value) ==> IsRead(goals, readings + [reading], i, value)
    ensures AllFinite(goals, reading) && reading(i) == Some(value) ==> IsRead(goals, readings + [reading], i, value)
  {
    var all := readings + [reading];
    assert all[|readings|] == reading;
    if IsRead(goals, readings, i, value) {
      var k :| 0 <= k < |readings| && AllFinite(goals, readings[k]) && readings[k](i) == Some(value);
      assert all[k] == readings[k];
    }
  }

  lemma {:induction false} NoWorseIsTransitive(goal: Goal, a: real, b: real, c: real)
    ensures NoWorse(goal, a, b) && NoWorse(goal, b, c) ==> NoWorse(goal, a, c)
  {
  }

  lemma {:induction false} StillBest(goals: seq<Goal>, readings: seq<nat -> Option<Float>>,
                                     reading: nat -> Option<Float>, i: nat, kept: real, value: real)
    requires i < |goals| && NoneBetter(goals, readings, i, kept) && NoWorse(goals[i], value, kept)
    requires AllFinite(goals, reading) ==> NoWorse(goals[i], value, reading(i).value.v)
    ensures NoneBetter(goals, readings + [reading], i, value)
  {
    var all := readings + [reading];
    forall k | 0 <= k < |all| && AllFinite(goals, all[k]) ensures NoWorse(goals[i], value, all[k](i).value.v) {
      if k < |readings| {
        NoWorseIsTransitive(goals[i], value, kept, readings[k](i).value.v);
      }
    }
  }

  /** An objective that is replaced if there is none yet or the new score is better. */
  lemma {:induction false} StoredNext(goals: seq<Goal>, reading: nat -> Option<Float>, best: Sample, next: Sample,
                                      readings: seq<nat -> Option<Float>>, i: nat)
    requires AllFinite(goals, reading) && i < |goals|
    requires best.valid ==> StoredAt(goals, best, readings, i)
    requires !best.valid ==> NoneBetter(goals, readings, i, reading(i).value.v)
    requires var score := ScoreOf(goals[i], reading(i).value);
             if !best.valid || Less(At(best.objectives, i), score) then
               At(next.objectives, i) == score && At(next.metrics, i) == reading(i).value
             else At(next.objectives, i) == At(best.objectives, i) && At(next.metrics, i) == At(best.metrics, i)
    ensures StoredAt(goals, next, readings + [reading], i)
  {
    var stored, kept := At(next.metrics, i), At(best.metrics, i);
    var value := reading(i).value.v;
    StillRead(goals, readings, reading, i, stored);
    if best.valid {
      NoWorseByScore(goals[i], value, kept.v, At(best.objectives, i));
      StillBest(goals, readings, reading, i, kept.v, stored.v);
    } else {
      StillBest(goals, readings, reading, i, value, value);
    }
  }

  /** One more tick, usable or not. */
  lemma {:induction false} MergeStoresBest(goals: seq<Goal>, expression: nat -> Option<Float>, timeMs: int,
                                           best: Sample, readings: seq<nat -> Option<Float>>)
    requires StoresBest(goals, best, readings)
    ensures var merged := Merge(goals, expression, timeMs, best);
            StoresBest(goals, if merged.Some? then merged.value else best, readings + [expression])
  {
    var all := readings + [expression];
    UsableIsFinite(goals, expression);
    assert forall k :: 0 <= k < |readings| ==> all[k] == readings[k];
    assert all[|readings|] == expression;
    forall i: nat | i < |goals| && AllUsable(goals, expression)
      ensures StoredAt(goals, Merge(goals, expression, timeMs, best).value, all, i)
    {
      MergedAt(goals, expression, best, |goals|, i);
      MetricAt(goals, expression, best, |goals|, i);
      StoredNext(goals, expression, best, Merge(goals, expression, timeMs, best).value, readings, i);
    }
    forall i: nat | i < |goals| && best.valid && !AllUsable(goals, expression) ensures StoredAt(goals, best, all, i) {
      assert StoredAt(goals, best, readings, i);
      StillRead(goals, readings, expression, i, At(best.metrics, i));
      StillBest(goals, readings, expression, i, At(best.metrics, i).v, At(best.metrics, i).v);
    }
  }

  lemma {:induction false} MergesStoreBest(goals: seq<Goal>, expression: nat -> Option<Float>, timeMs: int,
                                           best: Sample)
    ensures var merged := Merge(goals, expression, timeMs, best);
            forall readings :: StoresBest(goals, best, readings) ==>
              StoresBest(goals, if merged.Some? then merged.value else best, readings + [expression])
  {
    var merged := Merge(goals, expression, timeMs, best);
    forall readings | StoresBest(goals, best, readings)
      ensures StoresBest(goals, if merged.Some? then merged.value else best, readings + [expression])
    {
      MergeStoresBest(goals, expression, timeMs, best, readings);
    }
  }
}

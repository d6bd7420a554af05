/** Reductions over samples: first-wins scans, the two-level selection of the batch search,
    and Pareto maximality of the scripted reduction. */
module SearchSelection {
  import opened SearchSamples

  /** A first-wins scan: every sample that beats the running incumbent replaces it. */
  ghost function Scan(order: Order, incumbent: Sample, samples: seq<Sample>): Sample {
    if samples == [] then incumbent
    else Pick(order, Scan(order, incumbent, samples[..|samples| - 1]), samples[|samples| - 1])
  }

  ghost function Pick(order: Order, incumbent: Sample, sample: Sample): Sample {
    if Better(order, sample, incumbent) then sample else incumbent
  }

  lemma {:induction false} ScanAppend(order: Order, incumbent: Sample, samples: seq<Sample>, sample: Sample)
    ensures Scan(order, incumbent, samples + [sample]) ==
            Pick(order, Scan(order, incumbent, samples), sample)
  {
    assert (samples + [sample])[..|samples|] == samples;
  }

  lemma {:induction false} ScanConcat(order: Order, incumbent: Sample, a: seq<Sample>, b: seq<Sample>)
    ensures Scan(order, incumbent, a + b) == Scan(order, Scan(order, incumbent, a), b)
  {
    if b == [] {
      assert a + b == a;
    } else {
      var k := |b| - 1;
      assert a + b == (a + b[..k]) + [b[k]];
      ScanAppend(order, incumbent, a + b[..k], b[k]);
      ScanConcat(order, incumbent, a, b[..k]);
    }
  }

  lemma {:induction false} ScanStaysRanked(order: Order, incumbent: Sample, samples: seq<Sample>)
    requires Ranked(order, incumbent) && AllRanked(order, samples)
    ensures Ranked(order, Scan(order, incumbent, samples))
  {
    if samples != [] {
      ScanStaysRanked(order, incumbent, samples[..|samples| - 1]);
    }
  }

  /** MAIN RESULT for any strict partial order, so also for the scripted one: the winner of a
      scan is the incumbent or beats it, and nothing that was scanned beats the winner. */
  lemma {:induction false} ScanIsMaximal(order: Order, incumbent: Sample, samples: seq<Sample>)
    requires Ranked(order, incumbent) && AllRanked(order, samples)
    ensures var winner := Scan(order, incumbent, samples);
            && (winner == incumbent || Better(order, winner, incumbent))
            && (winner == incumbent || winner in samples)
            && !Better(order, incumbent, winner)
            && forall x :: x in samples ==> !Better(order, x, winner)
  {
    BetterIsStrictPartialOrder(order, incumbent, incumbent, incumbent);
    if samples != [] {
      var k := |samples| - 1;
      var front, last := samples[..k], samples[k];
      ScanIsMaximal(order, incumbent, front);
      ScanStaysRanked(order, incumbent, front);
      ScanStaysRanked(order, incumbent, samples);
      var before, winner := Scan(order, incumbent, front), Scan(order, incumbent, samples);
      BetterIsStrictPartialOrder(order, winner, before, incumbent);
      BetterIsStrictPartialOrder(order, incumbent, winner, before);
      BetterIsStrictPartialOrder(order, last, last, last);
      assert samples == front + [last];
      forall x | x in samples
        ensures !Better(order, x, winner)
      {
        if x in front {
          BetterIsStrictPartialOrder(order, x, winner, before);
        }
      }
    }
  }

  /** No incumbent that the scan held on the way beats the winner either. */
  lemma {:induction false} NoEarlierIncumbentWins(order: Order, incumbent: Sample, samples: seq<Sample>, k: nat)
    requires Ranked(order, incumbent) && AllRanked(order, samples) && k <= |samples|
    ensures !Better(order, Scan(order, incumbent, samples[..k]), Scan(order, incumbent, samples))
  {
    var earlier := Scan(order, incumbent, samples[..k]);
    assert samples == samples[..k] + samples[k..];
    ScanConcat(order, incumbent, samples[..k], samples[k..]);
    ScanStaysRanked(order, incumbent, samples[..k]);
    ScanIsMaximal(order, earlier, samples[k..]);
  }

  // ----- Two-level selection

  /** Each slot's best: a scan of its samples from the empty sample. */
  ghost function SlotBests(order: Order, emitted: seq<seq<Sample>>): seq<Sample> {
    seq(|emitted|, slot requires 0 <= slot < |emitted| => Scan(order, EMPTY_SAMPLE, emitted[slot]))
  }

  ghost function Flatten(emitted: seq<seq<Sample>>): seq<Sample> {
    if emitted == [] then [] else Flatten(emitted[..|emitted| - 1]) + emitted[|emitted| - 1]
  }

  /** The first valid sample of a slot has a NaN score. */
  ghost predicate StartsWithNaN(samples: seq<Sample>) {
    exists i :: 0 <= i < |samples| && IsNaN(samples[i]) && forall j :: 0 <= j < i ==> !samples[j].valid
  }

  /** That sample stands in front of a score that is a number. */
  ghost predicate Hides(samples: seq<Sample>) {
    StartsWithNaN(samples) && exists k :: 0 <= k < |samples| && samples[k].valid && !IsNaN(samples[k])
  }

  lemma {:induction false} HidesInLonger(samples: seq<Sample>, k: nat)
    requires k <= |samples|
    ensures StartsWithNaN(samples[..k]) ==> StartsWithNaN(samples)
    ensures Hides(samples[..k]) ==> Hides(samples)
  {
    if i :| 0 <= i < k && IsNaN(samples[..k][i]) && forall j :: 0 <= j < i ==> !samples[..k][j].valid {
      assert forall j :: 0 <= j < i ==> samples[j] == samples[..k][j];
      assert IsNaN(samples[i]);
    }
  }

  /** What the best of a slot says about its samples: it is valid if one of them is, and a NaN score in it
      came first. */
  lemma {:induction false} BestOfSlot(maximize: bool, samples: seq<Sample>)
    ensures var best := Scan(Scalar(maximize), EMPTY_SAMPLE, samples);
            && (best.valid <==> exists k :: 0 <= k < |samples| && samples[k].valid)
            && (IsNaN(best) ==> StartsWithNaN(samples))
  {
    if samples != [] {
      var k := |samples| - 1;
      var before := Scan(Scalar(maximize), EMPTY_SAMPLE, samples[..k]);
      BestOfSlot(maximize, samples[..k]);
      HidesInLonger(samples, k);
      assert before.valid ==> exists i :: 0 <= i < k && samples[..k][i].valid;
      assert !before.valid ==> forall i :: 0 <= i < k ==> !samples[i].valid by {
        assert forall i :: 0 <= i < k ==> samples[..k][i] == samples[i];
      }
    }
  }

  /** Offering two samples one after the other is offering the better of them, unless the first has a NaN
      score and the second a number. */
  lemma {:induction false} PickTwo(maximize: bool, incumbent: Sample, best: Sample, x: Sample)
    requires IsNaN(best) && x.valid ==> IsNaN(x)
    ensures var order := Scalar(maximize);
            Pick(order, Pick(order, incumbent, best), x) == Pick(order, incumbent, Pick(order, best, x))
  {
    var order := Scalar(maximize);
    if !IsNaN(best) {
      ScalarIsWeakOrder(maximize, x, best, incumbent);
      BetterIsStrictPartialOrder(order, x, best, incumbent);
    }
  }

  /** One slot without a hidden score: scanning its samples into any incumbent is offering its best to it. */
  lemma {:induction false} SlotScan(maximize: bool, incumbent: Sample, samples: seq<Sample>)
    requires !Hides(samples)
    ensures Scan(Scalar(maximize), incumbent, samples) ==
            Pick(Scalar(maximize), incumbent, Scan(Scalar(maximize), EMPTY_SAMPLE, samples))
  {
    if samples != [] {
      var k := |samples| - 1;
      HidesInLonger(samples, k);
      BestOfSlot(maximize, samples[..k]);
      SlotScan(maximize, incumbent, samples[..k]);
      PickTwo(maximize, incumbent, Scan(Scalar(maximize), EMPTY_SAMPLE, samples[..k]), samples[k]);
    }
  }

  /** A NaN that is the best stays the best, and beats nothing valid. */
  lemma {:induction false} NaNStays(maximize: bool, samples: seq<Sample>)
    requires StartsWithNaN(samples)
    ensures IsNaN(Scan(Scalar(maximize), EMPTY_SAMPLE, samples))
  {
    var i :| 0 <= i < |samples| && IsNaN(samples[i]) && forall j :: 0 <= j < i ==> !samples[j].valid;
    var k := |samples| - 1;
    if i < k {
      assert IsNaN(samples[..k][i]) && forall j :: 0 <= j < i ==> !samples[..k][j].valid;
      NaNStays(maximize, samples[..k]);
    } else {
      BestOfSlot(maximize, samples[..k]);
    }
  }

  /** A valid incumbent that some sample beats does not survive a scan. */
  lemma {:induction false} BeatenIsReplaced(maximize: bool, incumbent: Sample, samples: seq<Sample>, k: nat)
    requires k < |samples| && StrictlyBetter(samples[k], incumbent, maximize)
    ensures StrictlyBetter(Scan(Scalar(maximize), incumbent, samples), incumbent, maximize)
  {
    ScanIsMaximal(Scalar(maximize), incumbent, samples);
    assert samples[k] in samples;
  }

  /** Offering a slot's best to an incumbent is offering it all samples of the slot. */
  ghost predicate StandsFor(maximize: bool, samples: seq<Sample>, incumbent: Sample) {
    Scan(Scalar(maximize), incumbent, samples) ==
    Pick(Scalar(maximize), incumbent, Scan(Scalar(maximize), EMPTY_SAMPLE, samples))
  }

  /** MAIN RESULT.  A slot's best stands for the slot, whatever the incumbent, if and only if the slot hides
      no score behind a NaN. */
  lemma {:induction false} SlotStandsIff(maximize: bool, samples: seq<Sample>)
    ensures (forall incumbent :: StandsFor(maximize, samples, incumbent)) <==> !Hides(samples)
  {
    if Hides(samples) {
      var k :| 0 <= k < |samples| && samples[k].valid && !IsNaN(samples[k]);
      var incumbent := samples[k].(eventCount := samples[k].eventCount + 1);
      NaNStays(maximize, samples);
      BeatenIsReplaced(maximize, incumbent, samples, k);
      assert Pick(Scalar(maximize), incumbent, Scan(Scalar(maximize), EMPTY_SAMPLE, samples)) == incumbent;
      assert !StandsFor(maximize, samples, incumbent);
    } else {
      forall incumbent ensures StandsFor(maximize, samples, incumbent) {
        SlotScan(maximize, incumbent, samples);
      }
    }
  }

  ghost predicate NoneHides(emitted: seq<seq<Sample>>) {
    forall slot :: 0 <= slot < |emitted| ==> !Hides(emitted[slot])
  }

  lemma {:induction false} TwoLevelScan(maximize: bool, incumbent: Sample, emitted: seq<seq<Sample>>)
    requires NoneHides(emitted)
    ensures Scan(Scalar(maximize), incumbent, SlotBests(Scalar(maximize), emitted)) ==
            Scan(Scalar(maximize), incumbent, Flatten(emitted))
  {
    var order := Scalar(maximize);
    if emitted != [] {
      var k := |emitted| - 1;
      TwoLevelScan(maximize, incumbent, emitted[..k]);
      assert SlotBests(order, emitted) ==
             SlotBests(order, emitted[..k]) + [Scan(order, EMPTY_SAMPLE, emitted[k])];
      ScanAppend(order, incumbent, SlotBests(order, emitted[..k]), Scan(order, EMPTY_SAMPLE, emitted[k]));
      ScanConcat(order, incumbent, Flatten(emitted[..k]), emitted[k]);
      SlotScan(maximize, Scan(order, incumbent, Flatten(emitted[..k])), emitted[k]);
    }
  }

  // ----- Logical order

  ghost predicate Increasing(samples: seq<Sample>) {
    forall i, j :: 0 <= i < j < |samples| ==> samples[i].logicalOrder < samples[j].logicalOrder
  }

  /** Every slot numbers its samples with increasing evaluation ticks below the tick count. */
  ghost predicate Stamped(slot: nat, evaluationTickCount: nat, samples: seq<Sample>) {
    && (forall i :: 0 <= i < |samples| ==>
          && samples[i].evaluationTick < evaluationTickCount
          && samples[i].logicalOrder == 1 + slot * evaluationTickCount + samples[i].evaluationTick)
    && (forall i, j :: 0 <= i < j < |samples| ==> samples[i].evaluationTick < samples[j].evaluationTick)
  }

  lemma {:induction false} FlattenIncreases(emitted: seq<seq<Sample>>, evaluationTickCount: nat)
    requires forall slot :: 0 <= slot < |emitted| ==> Stamped(slot, evaluationTickCount, emitted[slot])
    ensures Increasing(Flatten(emitted))
    ensures forall x :: x in Flatten(emitted) ==> x.logicalOrder <= |emitted| * evaluationTickCount
  {
    if emitted != [] {
      var k := |emitted| - 1;
      FlattenIncreases(emitted[..k], evaluationTickCount);
      var front, last := Flatten(emitted[..k]), emitted[k];
      var all := front + last;
      assert (k + 1) * evaluationTickCount == k * evaluationTickCount + evaluationTickCount;
      forall i, j | 0 <= i < j < |all|
        ensures all[i].logicalOrder < all[j].logicalOrder
      {
        if i < |front| {
          assert front[i] in front;
        }
      }
    }
  }

  lemma {:induction false} TailMultiset(a: seq<Sample>)
    requires a != []
    ensures multiset(a[1..]) == multiset(a) - multiset{a[0]}
  {
    assert a == [a[0]] + a[1..];
  }

  /** The head of an increasing listing has the least logical order. */
  lemma {:induction false} HeadIsLeast(a: seq<Sample>, x: Sample)
    requires Increasing(a) && x in multiset(a)
    ensures x == a[0] || a[0].logicalOrder < x.logicalOrder
  {
    assert x in a;
  }

  lemma {:induction false} HeadsAgree(a: seq<Sample>, b: seq<Sample>)
    requires Increasing(a) && Increasing(b) && multiset(a) == multiset(b) && a != [] && b != []
    ensures a[0] == b[0]
    ensures multiset(a[1..]) == multiset(b[1..])
  {
    assert a[0] in multiset(a) && b[0] in multiset(b);
    HeadIsLeast(a, b[0]);
    HeadIsLeast(b, a[0]);
    TailMultiset(a);
    TailMultiset(b);
  }

  /** A set of samples has at most one listing in increasing logical order. */
  lemma {:induction false} IncreasingIsUnique(a: seq<Sample>, b: seq<Sample>)
    requires Increasing(a) && Increasing(b) && multiset(a) == multiset(b)
    ensures a == b
  {
    assert |a| == |multiset(a)| == |multiset(b)| == |b|;
    if a != [] {
      HeadsAgree(a, b);
      IncreasingIsUnique(a[1..], b[1..]);
      assert a == [a[0]] + a[1..] == [b[0]] + b[1..] == b;
    }
  }

  /** MAIN RESULT.  Whatever the incumbent, per-slot running bests followed by the slot-order reduction pick the very
      sample that one scan over all samples in increasing logical order picks. */
  lemma {:induction false} TwoLevelEqualsFlatScan(maximize: bool, incumbent: Sample, emitted: seq<seq<Sample>>,
                               evaluationTickCount: nat, flat: seq<Sample>)
    requires NoneHides(emitted)
    requires forall slot :: 0 <= slot < |emitted| ==> Stamped(slot, evaluationTickCount, emitted[slot])
    requires multiset(flat) == multiset(Flatten(emitted)) && Increasing(flat)
    ensures Scan(Scalar(maximize), incumbent, SlotBests(Scalar(maximize), emitted)) ==
            Scan(Scalar(maximize), incumbent, flat)
  {
    TwoLevelScan(maximize, incumbent, emitted);
    FlattenIncreases(emitted, evaluationTickCount);
    IncreasingIsUnique(flat, Flatten(emitted));
  }

  function Scored(score: Float, slot: nat, tick: nat): Sample {
    EMPTY_SAMPLE.(valid := true, score := score, candidateSlot := slot, evaluationTick := tick,
                  logicalOrder := 1 + 2 * slot + tick)
  }

  /** Both scans of a batch of one slot with two samples. */
  lemma {:induction false} OneSlotOfTwo(order: Order, incumbent: Sample, x: Sample, y: Sample)
    ensures Scan(order, incumbent, SlotBests(order, [[x, y]])) ==
            Pick(order, incumbent, Pick(order, Pick(order, EMPTY_SAMPLE, x), y))
    ensures Scan(order, incumbent, Flatten([[x, y]])) == Pick(order, Pick(order, incumbent, x), y)
  {
    var slot := [x, y];
    assert [slot][..0] == [] && Flatten([slot]) == [] + slot == slot;
    forall i: Sample
      ensures Scan(order, i, slot) == Pick(order, Pick(order, i, x), y)
    {
      assert slot == [x] + [y] && [x] == [] + [x];
      ScanAppend(order, i, [x], y);
      ScanAppend(order, i, [], x);
    }
    var best := Scan(order, EMPTY_SAMPLE, slot);
    assert SlotBests(order, [slot]) == [] + [best];
    ScanAppend(order, incumbent, [], best);
  }

  /** A witness: a NaN that reaches a slot first hides that slot's later score from the reduction, while
      the flat scan from a valid incumbent takes it. */
  lemma {:induction false} NaNSplitsTheTwoScans()
    ensures var incumbent, slot := Scored(Num(1.0), 7, 0), [Scored(NaN, 0, 0), Scored(Num(5.0), 0, 1)];
            && Hides(slot)
            && Scan(Scalar(true), incumbent, SlotBests(Scalar(true), [slot])) == incumbent
            && Scan(Scalar(true), incumbent, Flatten([slot])) == Scored(Num(5.0), 0, 1)
  {
    var x, y := Scored(NaN, 0, 0), Scored(Num(5.0), 0, 1);
    assert IsNaN([x, y][0]) && [x, y][1].valid && !IsNaN([x, y][1]);
    OneSlotOfTwo(Scalar(true), Scored(Num(1.0), 7, 0), x, y);
  }
}

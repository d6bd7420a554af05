/** The exact binomial confidence interval for a median and the exact two-sided
    sign test of tools/reference_evidence.  Confidences, coverages and p-values
    are exact reals.  The main result is that the two procedures are dual. */
module MedianEvidence {

  import opened Arithmetic
  import opened Common

  // ----- Binomial arithmetic

  /** The number of ways to choose k of n, by Pascal's rule. */
  function Comb(n: nat, k: nat): nat {
    if k == 0 then 1
    else if n == 0 then 0
    else Comb(n - 1, k - 1) + Comb(n - 1, k)
  }

  /** The number of ways to choose fewer than k of n. */
  function CombSum(n: nat, k: nat): nat {
    if k == 0 then 0 else CombSum(n, k - 1) + Comb(n, k - 1)
  }

  lemma {:induction false} CombSign(n: nat, k: nat)
    ensures Comb(n, k) > 0 <==> k <= n
  {
    if k > 0 && n > 0 {
      CombSign(n - 1, k - 1);
      CombSign(n - 1, k);
    }
  }

  lemma {:induction false} CombSumPascal(n: nat, k: nat)
    ensures CombSum(n + 1, k + 1) == CombSum(n, k + 1) + CombSum(n, k)
  {
    if k > 0 {
      CombSumPascal(n, k - 1);
      assert Comb(n + 1, k) == Comb(n, k - 1) + Comb(n, k);
    }
  }

  lemma {:induction false} CombSumMonotone(n: nat, a: nat, b: nat)
    requires a <= b
    ensures CombSum(n, a) <= CombSum(n, b)
    ensures a < b && a <= n ==> CombSum(n, a) < CombSum(n, b)
  {
    if a < b {
      CombSumMonotone(n, a, b - 1);
      CombSign(n, b - 1);
    }
  }

  lemma {:induction false} CombRowSum(n: nat)
    ensures CombSum(n, n + 1) == Pow2(n)
  {
    if n == 0 {
      assert CombSum(0, 1) == CombSum(0, 0) + Comb(0, 0);
    } else {
      CombRowSum(n - 1);
      CombSumPascal(n - 1, n);
      CombSign(n - 1, n);
    }
  }

  /** The two complementary partial sums of row n add up to the whole row. */
  lemma {:induction false} CombSumComplement(n: nat, k: nat)
    requires k <= n + 1
    ensures CombSum(n, k) + CombSum(n, n + 1 - k) == Pow2(n)
  {
    if k == 0 || k == n + 1 {
      CombRowSum(n);
    } else {
      var r := n - 1;
      CombSumPascal(r, k - 1);
      CombSumPascal(r, r + 1 - k);
      CombSumComplement(r, k);
      CombSumComplement(r, k - 1);
    }
  }

  /** A tail that reaches the middle of the row holds at least half of it. */
  lemma {:induction false} HalfSum(n: nat, k: nat)
    requires 2 * k >= n + 1
    ensures 2 * CombSum(n, k) >= Pow2(n)
  {
    var j := if k <= n + 1 then k else n + 1;
    CombSumMonotone(n, j, k);
    CombSumComplement(n, j);
    CombSumMonotone(n, n + 1 - j, j);
  }

  ghost function Range(n: nat): (range: set<nat>)
    ensures forall i: nat :: i in range <==> i < n
  {
    if n == 0 then {} else Range(n - 1) + {n - 1}
  }

  /** The outcomes of n coin tosses, as the sets of tosses that fall heads, by their number of heads. */
  ghost function Tosses(n: nat, heads: nat): set<set<nat>> {
    set s: set<nat> | s <= Range(n) && |s| == heads
  }

  ghost function FewTosses(n: nat, limit: nat): set<set<nat>> {
    set s: set<nat> | s <= Range(n) && |s| < limit
  }

  ghost function WithLast(few: set<set<nat>>, n: nat): set<set<nat>> {
    set s | s in few :: s + {n}
  }

  lemma {:induction false} WithLastSize(few: set<set<nat>>, n: nat)
    requires forall s :: s in few ==> n !in s
    ensures |WithLast(few, n)| == |few|
  {
    if few == {} {
      assert WithLast(few, n) == {};
    } else {
      var s :| s in few;
      WithLastSize(few - {s}, n);
      forall t | t in few - {s} ensures t + {n} != s + {n} {
        assert (t + {n}) - {n} == t && (s + {n}) - {n} == s;
      }
      assert s + {n} !in WithLast(few - {s}, n);
      assert WithLast(few, n) == WithLast(few - {s}, n) + {s + {n}};
    }
  }

  lemma {:induction false} TossesSplit(n: nat, heads: nat)
    requires n > 0 && heads > 0
    ensures Tosses(n, heads) == Tosses(n - 1, heads) + WithLast(Tosses(n - 1, heads - 1), n - 1)
  {
    var last := n - 1;
    forall s: set<nat>
      ensures s in Tosses(n, heads) <==> s in Tosses(last, heads) || s in WithLast(Tosses(last, heads - 1), last)
    {
      if s in Tosses(n, heads) && last in s {
        var t := s - {last};
        assert t <= Range(last) && |t| == heads - 1 && t + {last} == s;
        assert t in Tosses(last, heads - 1);
      }
      if s in WithLast(Tosses(last, heads - 1), last) {
        var t :| t in Tosses(last, heads - 1) && s == t + {last};
        assert last !in t && |s| == heads;
      }
    }
  }

  lemma {:induction false} LastTossApart(n: nat, heads: nat)
    requires heads > 0
    ensures Tosses(n, heads) !! WithLast(Tosses(n, heads - 1), n)
    ensures |WithLast(Tosses(n, heads - 1), n)| == |Tosses(n, heads - 1)|
  {
    assert forall s :: s in Tosses(n, heads) ==> n !in s;
    assert forall s :: s in WithLast(Tosses(n, heads - 1), n) ==> n in s;
    WithLastSize(Tosses(n, heads - 1), n);
  }

  lemma {:induction false} TossesBase(n: nat, heads: nat)
    ensures |Tosses(n, 0)| == 1
    ensures heads > 0 ==> |Tosses(0, heads)| == 0
  {
    assert Tosses(n, 0) == {{}};
    if heads > 0 {
      assert Range(0) == {};
      assert forall s :: s <= Range(0) ==> |s| == 0;
      assert Tosses(0, heads) == {};
    }
  }

  lemma {:induction false} TossesPascal(n: nat, heads: nat)
    requires n > 0 && heads > 0
    ensures |Tosses(n, heads)| == |Tosses(n - 1, heads - 1)| + |Tosses(n - 1, heads)|
  {
    TossesSplit(n, heads);
    LastTossApart(n - 1, heads);
    ApartSize(Tosses(n - 1, heads), WithLast(Tosses(n - 1, heads - 1), n - 1));
  }

  lemma {:induction false} ApartSize(some: set<set<nat>>, more: set<set<nat>>)
    requires some !! more
    ensures |some + more| == |some| + |more|
  {
  }

  /** The binomial coefficients count outcomes of coin tosses. */
  lemma {:induction false} CombCounts(n: nat, heads: nat)
    ensures |Tosses(n, heads)| == Comb(n, heads)
  {
    if heads == 0 || n == 0 {
      TossesBase(n, heads);
    } else {
      CombCounts(n - 1, heads);
      CombCounts(n - 1, heads - 1);
      TossesPascal(n, heads);
    }
  }

  lemma {:induction false} CombSumCounts(n: nat, limit: nat)
    ensures |FewTosses(n, limit)| == CombSum(n, limit)
  {
    if limit == 0 {
      assert FewTosses(n, 0) == {};
    } else {
      CombSumCounts(n, limit - 1);
      CombCounts(n, limit - 1);
      assert FewTosses(n, limit) == FewTosses(n, limit - 1) + Tosses(n, limit - 1);
      assert FewTosses(n, limit - 1) !! Tosses(n, limit - 1);
    }
  }

  // ----- Order statistics

  ghost predicate IsSorted(s: seq<real>) {
    forall i, j :: 0 <= i < j < |s| ==> s[i] <= s[j]
  }

  function Insert(x: real, s: seq<real>): seq<real> {
    if s == [] || x <= s[0] then [x] + s else [s[0]] + Insert(x, s[1..])
  }

  /** The values in ascending order. */
  function Sorted(values: seq<real>): seq<real> {
    if values == [] then [] else Insert(values[0], Sorted(values[1..]))
  }

  /** How many observations lie strictly below a center. */
  function Below(values: seq<real>, center: real): nat {
    if values == [] then 0
    else (if values[0] < center then 1 else 0) + Below(values[1..], center)
  }

  /** How many observations lie strictly above a center. */
  function Above(values: seq<real>, center: real): nat {
    if values == [] then 0
    else (if values[0] > center then 1 else 0) + Above(values[1..], center)
  }

  lemma {:induction false} InsertSorts(x: real, s: seq<real>)
    requires IsSorted(s)
    ensures IsSorted(Insert(x, s)) && |Insert(x, s)| == |s| + 1
    ensures forall y :: y in Insert(x, s) ==> y == x || y in s
  {
    if s != [] && x > s[0] {
      var t := Insert(x, s[1..]);
      InsertSorts(x, s[1..]);
      forall j | 0 <= j < |t|
        ensures s[0] <= t[j]
      {
        assert t[j] in t;
      }
    }
  }

  lemma {:induction false} CountCons(x: real, s: seq<real>, center: real)
    ensures Below([x] + s, center) == (if x < center then 1 else 0) + Below(s, center)
    ensures Above([x] + s, center) == (if x > center then 1 else 0) + Above(s, center)
  {
    assert ([x] + s)[1..] == s;
  }

  lemma {:induction false} InsertCounts(x: real, s: seq<real>, center: real)
    ensures Below(Insert(x, s), center) == Below([x] + s, center)
    ensures Above(Insert(x, s), center) == Above([x] + s, center)
  {
    if s != [] && x > s[0] {
      InsertCounts(x, s[1..], center);
      CountCons(s[0], Insert(x, s[1..]), center);
      CountCons(x, s[1..], center);
      CountCons(x, s, center);
    }
  }

  lemma {:induction false} SortedFacts(values: seq<real>, center: real)
    ensures IsSorted(Sorted(values)) && |Sorted(values)| == |values|
    ensures Below(Sorted(values), center) == Below(values, center)
    ensures Above(Sorted(values), center) == Above(values, center)
  {
    if values != [] {
      SortedFacts(values[1..], center);
      InsertSorts(values[0], Sorted(values[1..]));
      InsertCounts(values[0], Sorted(values[1..]), center);
      assert ([values[0]] + Sorted(values[1..]))[1..] == Sorted(values[1..]);
    }
  }

  lemma {:induction false} SidesFit(values: seq<real>, center: real)
    ensures Above(values, center) + Below(values, center) <= |values|
  {
    if values != [] {
      SidesFit(values[1..], center);
    }
  }

  /** In a sorted list the elements below center are a prefix, those above a suffix. */
  lemma {:induction false} RankOf(s: seq<real>, center: real, i: nat)
    requires IsSorted(s) && i < |s|
    ensures s[i] < center <==> i < Below(s, center)
    ensures s[i] > center <==> i >= |s| - Above(s, center)
  {
    SidesFit(s[1..], center);
    if |s| == 1 {
      assert s[1..] == [];
    } else if i > 0 {
      RankOf(s[1..], center, i - 1);
      assert s[0] <= s[i] && s[1..][i - 1] == s[i];
      RankOf(s[1..], center, 0);
      assert s[0] <= s[1];
    } else {
      RankOf(s[1..], center, 0);
      assert s[0] <= s[1];
    }
  }

  lemma {:induction false} CountLast(front: seq<real>, x: real, center: real)
    ensures Below(front + [x], center) == Below(front, center) + if x < center then 1 else 0
    ensures Above(front + [x], center) == Above(front, center) + if x > center then 1 else 0
  {
    if front == [] {
      assert [] + [x] == [x] && [x][1..] == [];
    } else {
      CountLast(front[1..], x, center);
      assert (front + [x])[1..] == front[1..] + [x];
    }
  }

  /** Both counts, position by position. */
  lemma {:induction false} SidesCount(values: seq<real>, center: real)
    ensures Below(values, center) == |set i | 0 <= i < |values| && values[i] < center|
    ensures Above(values, center) == |set i | 0 <= i < |values| && values[i] > center|
  {
    var below := set i | 0 <= i < |values| && values[i] < center;
    var above := set i | 0 <= i < |values| && values[i] > center;
    if values == [] {
      assert below == {} && above == {};
    } else {
      var k := |values| - 1;
      var front, x := values[..k], values[k];
      SidesCount(front, center);
      CountLast(front, x, center);
      assert values == front + [x];
      assert below == (set i | 0 <= i < |front| && front[i] < center) + if x < center then {k} else {};
      assert above == (set i | 0 <= i < |front| && front[i] > center) + if x > center then {k} else {};
    }
  }

  lemma {:induction false} InsertKeeps(x: real, s: seq<real>)
    ensures multiset(Insert(x, s)) == multiset([x] + s)
  {
    if s != [] && x > s[0] {
      InsertKeeps(x, s[1..]);
      assert s == [s[0]] + s[1..];
    }
  }

  lemma {:induction false} SortedKeeps(values: seq<real>)
    ensures multiset(Sorted(values)) == multiset(values)
  {
    if values != [] {
      SortedKeeps(values[1..]);
      InsertKeeps(values[0], Sorted(values[1..]));
      assert values == [values[0]] + values[1..];
    }
  }

  // ----- The interval

  /** The probability that the interval between the k-th smallest and the k-th largest of n observations
      covers the median: what is left of one without the two binomial tails below k. */
  function Coverage(n: nat, k: nat): real {
    1.0 - 2.0 * (CombSum(n, k) as real / Pow2(n) as real)
  }

  lemma {:induction false} CoverageDecreases(n: nat, a: nat, b: nat)
    requires a < b <= n + 1
    ensures Coverage(n, a) > Coverage(n, b)
  {
    CombSumMonotone(n, a, b);
    SmallerPart(CombSum(n, a) as real, CombSum(n, b) as real, Pow2(n) as real);
  }

  lemma {:induction false} SmallerPart(a: real, b: real, power: real)
    requires a < b && power > 0.0
    ensures a / power < b / power
  {
    var x, y := a / power, b / power;
    assert x * power == a && y * power == b;
    ProductOrder(y, x, power);
  }

  /** The largest index in 1..bound whose coverage reaches the confidence. */
  function SelectedRank(n: nat, confidence: real, bound: nat): Option<nat> {
    if bound == 0 then None
    else if Coverage(n, bound) >= confidence then Some(bound)
    else SelectedRank(n, confidence, bound - 1)
  }

  lemma {:induction false} SelectedRankIsLargest(n: nat, confidence: real, bound: nat, k: nat)
    requires 1 <= k <= bound <= n
    ensures Coverage(n, k) >= confidence <==>
            SelectedRank(n, confidence, bound).Some? && k <= SelectedRank(n, confidence, bound).value
  {
    if Coverage(n, bound) >= confidence {
      if k < bound {
        CoverageDecreases(n, k, bound);
      }
    } else if k < bound {
      SelectedRankIsLargest(n, confidence, bound - 1, k);
    } else if bound > 1 {
      SelectedRankBounds(n, confidence, bound - 1);
    }
  }

  lemma {:induction false} SelectedRankBounds(n: nat, confidence: real, bound: nat)
    ensures SelectedRank(n, confidence, bound).Some? ==>
              1 <= SelectedRank(n, confidence, bound).value <= bound
  {
    if bound > 0 && Coverage(n, bound) < confidence {
      SelectedRankBounds(n, confidence, bound - 1);
    }
  }

  datatype Interval = Interval(coverage: real, lower: real, upper: real,
                               lowerRank: nat, upperRank: nat)

  /** What exact_median_interval returns. */
  function MedianInterval(values: seq<real>, confidence: real): Option<Interval> {
    var n := |values|;
    SortedFacts(values, 0.0);
    SelectedRankBounds(n, confidence, n / 2);
    match SelectedRank(n, confidence, n / 2)
    case None => None
    case Some(k) =>
      Some(Interval(Coverage(n, k), Sorted(values)[k - 1], Sorted(values)[n - k], k, n - k + 1))
  }

  /** Value v is the k-th smallest: fewer than k values lie below it and at least k do not lie above it. */
  ghost predicate IsSmallest(values: seq<real>, k: nat, v: real) {
    && v in values
    && |set i | 0 <= i < |values| && values[i] < v| < k
    && k + |set i | 0 <= i < |values| && values[i] > v| <= |values|
  }

  lemma {:induction false} SortedIsSmallest(values: seq<real>, k: nat)
    requires 1 <= k <= |values|
    ensures |Sorted(values)| == |values| && IsSmallest(values, k, Sorted(values)[k - 1])
  {
    SortedFacts(values, 0.0);
    var v := Sorted(values)[k - 1];
    SortedFacts(values, v);
    RankOf(Sorted(values), v, k - 1);
    SidesCount(values, v);
    SortedKeeps(values);
    assert v in multiset(Sorted(values));
  }

  /** Rank k qualifies: if n fair coins are tossed, at most that part of all outcomes has fewer than k heads
      or fewer than k tails. */
  ghost predicate Qualifies(n: nat, k: nat, confidence: real) {
    2.0 * |FewTosses(n, k)| as real <= (1.0 - confidence) * |FewTosses(n, n + 1)| as real
  }

  lemma {:induction false} QualifiesIff(n: nat, k: nat, confidence: real)
    ensures Qualifies(n, k, confidence) <==> Coverage(n, k) >= confidence
    ensures Coverage(n, k) * |FewTosses(n, n + 1)| as real ==
            |FewTosses(n, n + 1)| as real - 2.0 * |FewTosses(n, k)| as real
  {
    CoverageIs(n, k);
    DoubledPart(|FewTosses(n, k)| as real, |FewTosses(n, n + 1)| as real, confidence);
  }

  lemma {:induction false} CoverageIs(n: nat, k: nat)
    ensures |FewTosses(n, n + 1)| > 0
    ensures Coverage(n, k) == 1.0 - 2.0 * (|FewTosses(n, k)| as real / |FewTosses(n, n + 1)| as real)
  {
    CombSumCounts(n, k);
    CombSumCounts(n, n + 1);
    CombRowSum(n);
  }

  lemma {:induction false} DoubledPart(sum: real, power: real, confidence: real)
    requires power > 0.0
    ensures (1.0 - 2.0 * (sum / power)) * power == power - 2.0 * sum
    ensures 2.0 * sum <= (1.0 - confidence) * power <==> 1.0 - 2.0 * (sum / power) >= confidence
  {
    var tail := sum / power;
    assert tail * power == sum;
    var coverage := 1.0 - 2.0 * tail;
    assert coverage * power == power - 2.0 * sum;
    ProductOrder(confidence, coverage, power);
    assert (1.0 - confidence) * power == power - confidence * power;
  }

  lemma {:induction false} ProductOrder(a: real, b: real, c: real)
    requires c > 0.0
    ensures a <= b <==> a * c <= b * c
  {
    if b < a {
      assert (a - b) * c > 0.0;
    } else {
      assert (b - a) * c >= 0.0;
    }
  }

  /** The reported interval reaches from the k-th smallest to the k-th largest value, for the largest k up to
      half of the values that qualifies, and there is none exactly if no such k qualifies. */
  lemma {:induction false} IntervalMeans(values: seq<real>, confidence: real)
    ensures var n, result := |values|, MedianInterval(values, confidence);
            match result
            case None => forall k :: 1 <= k <= n / 2 ==> !Qualifies(n, k, confidence)
            case Some(interval) =>
              var k := interval.lowerRank;
              && 1 <= k <= n / 2 && interval.upperRank == n + 1 - k
              && (forall j :: 1 <= j <= n / 2 ==> (Qualifies(n, j, confidence) <==> j <= k))
              && IsSmallest(values, k, interval.lower) && IsSmallest(values, n + 1 - k, interval.upper)
              && interval.coverage * |FewTosses(n, n + 1)| as real ==
                 |FewTosses(n, n + 1)| as real - 2.0 * |FewTosses(n, k)| as real
  {
    var n := |values|;
    SelectedRankBounds(n, confidence, n / 2);
    forall k | 1 <= k <= n / 2
      ensures Qualifies(n, k, confidence) <==>
              SelectedRank(n, confidence, n / 2).Some? && k <= SelectedRank(n, confidence, n / 2).value
    {
      SelectedRankIsLargest(n, confidence, n / 2, k);
      QualifiesIff(n, k, confidence);
    }
    var selected := SelectedRank(n, confidence, n / 2);
    if selected.Some? {
      var k := selected.value;
      QualifiesIff(n, k, confidence);
      SortedIsSmallest(values, k);
      SortedIsSmallest(values, n + 1 - k);
    }
  }

  method CoverageOf(n: nat, k: nat) returns (coverage: real)
    ensures coverage == Coverage(n, k)
  {
    var sum, power := 0, 1;
    for index := 0 to k
      invariant sum == CombSum(n, index)
    {
      sum := sum + Comb(n, index);
    }
    for index := 0 to n
      invariant power == Pow2(index)
    {
      power := 2 * power;
    }
    var tail := sum as real / power as real;
    coverage := 1.0 - 2.0 * tail;
  }

  /** The scan over k that overwrites its selection every time a rank qualifies. */
  method ScanRanks(n: nat, confidence: real) returns (selected: Option<(nat, real)>)
    ensures selected == match SelectedRank(n, confidence, n / 2)
                        case None => None
                        case Some(k) => Some((k, Coverage(n, k)))
  {
    selected := None;
    for k := 1 to n / 2 + 1
      invariant selected == match SelectedRank(n, confidence, k - 1)
                            case None => None
                            case Some(j) => Some((j, Coverage(n, j)))
    {
      var coverage := CoverageOf(n, k);
      if coverage >= confidence {
        selected := Some((k, coverage));
      }
    }
  }

  /** exact_median_interval: sort, scan, and read the two order statistics. */
  method ExactMedianInterval(values: seq<real>, confidence: real) returns (result: Option<Interval>)
    ensures result == MedianInterval(values, confidence)
  {
    var ordered := Sorted(values);
    var n := |ordered|;
    SortedFacts(values, 0.0);
    var selected := ScanRanks(n, confidence);
    if selected.None? {
      return None;
    }
    var (k, coverage) := selected.value;
    SelectedRankBounds(n, confidence, n / 2);
    result := Some(Interval(coverage, ordered[k - 1], ordered[n - k], k, n - k + 1));
  }

  // ----- The sign test

  /** The two-sided p-value of exact_two_sided_sign_test. */
  function SignTestPValue(values: seq<real>, center: real): real {
    var above, below := Above(values, center), Below(values, center);
    var n := above + below;
    if n == 0 then 1.0
    else
      var smaller := if above <= below then above else below;
      var p := 2.0 * CombSum(n, smaller + 1) as real / Pow2(n) as real;
      if p < 1.0 then p else 1.0
  }

  /** The p-value is one without untied observations; otherwise it is twice the part of the outcomes of as
      many coin tosses that have at most as many heads as the rarer sign, and at most one. */
  lemma {:induction false} PValueMeans(values: seq<real>, center: real)
    ensures var above := |set i | 0 <= i < |values| && values[i] > center|;
            var below := |set i | 0 <= i < |values| && values[i] < center|;
            var n, p := above + below, SignTestPValue(values, center);
            && (n == 0 ==> p == 1.0)
            && (n > 0 ==>
                  var few := FewTosses(n, if above < below then above + 1 else below + 1);
                  var all := FewTosses(n, n + 1);
                  p * |all| as real == if 2 * |few| < |all| then 2.0 * |few| as real else |all| as real)
  {
    SidesCount(values, center);
    var above, below := Above(values, center), Below(values, center);
    var n, m := above + below, if above < below then above else below;
    TwiceIs(n, m + 1);
    ClampedPart(2.0 * |FewTosses(n, m + 1)| as real, |FewTosses(n, n + 1)| as real);
  }

  lemma {:induction false} TwiceIs(n: nat, k: nat)
    ensures |FewTosses(n, n + 1)| > 0
    ensures 2.0 * CombSum(n, k) as real / Pow2(n) as real ==
            2.0 * |FewTosses(n, k)| as real / |FewTosses(n, n + 1)| as real
  {
    CombSumCounts(n, k);
    CombSumCounts(n, n + 1);
    CombRowSum(n);
  }

  lemma {:induction false} ClampedPart(twice: real, power: real)
    requires power > 0.0
    ensures twice / power < 1.0 <==> twice < power
    ensures twice / power * power == twice
  {
    ProductOrder(1.0, twice / power, power);
  }

  predicate NoTies(values: seq<real>, center: real) {
    Above(values, center) + Below(values, center) == |values|
  }

  predicate Rejects(values: seq<real>, center: real, confidence: real) {
    SignTestPValue(values, center) <= 1.0 - confidence
  }

  predicate ExcludesNull(values: seq<real>, center: real, confidence: real) {
    var interval := MedianInterval(values, confidence);
    interval.Some? && (center < interval.value.lower || interval.value.upper < center)
  }

  /** A p-value below the significance level means a qualifying rank, and that rank is one
      the interval scan reaches. */
  lemma {:induction false} RankOfPValue(n: nat, m: nat, confidence: real)
    requires 0.0 < confidence && 2 * m <= n
    ensures 2.0 * CombSum(n, m + 1) as real / Pow2(n) as real <= 1.0 - confidence
            <==> Coverage(n, m + 1) >= confidence
    ensures Coverage(n, m + 1) >= confidence ==> m + 1 <= n / 2
  {
    DoubledTail(CombSum(n, m + 1) as real, Pow2(n) as real);
    if m + 1 > n / 2 {
      HalfSum(n, m + 1);
    }
  }

  lemma {:induction false} DoubledTail(sum: real, power: real)
    requires power > 0.0
    ensures 2.0 * sum / power == 2.0 * (sum / power)
    ensures 2.0 * sum >= power ==> 2.0 * (sum / power) >= 1.0
  {
    var tail := sum / power;
    assert tail * power == sum;
    if 2.0 * tail < 1.0 {
      assert (1.0 - 2.0 * tail) * power > 0.0;
    }
  }

  /** The smaller of the two sign counts. */
  function SmallerSide(values: seq<real>, center: real): nat {
    if Above(values, center) <= Below(values, center) then Above(values, center) else Below(values, center)
  }

  /** The rank one above the smaller sign count qualifies over the untied observations. */
  predicate SignsQualify(values: seq<real>, center: real, confidence: real) {
    var untied := Above(values, center) + Below(values, center);
    untied > 0 && Coverage(untied, SmallerSide(values, center) + 1) >= confidence
  }

  /** The test rejects exactly when the rank one above the smaller sign count qualifies. */
  lemma {:induction false} RejectsByRank(values: seq<real>, center: real, confidence: real)
    requires 0.0 < confidence < 1.0
    ensures Rejects(values, center, confidence) <==> SignsQualify(values, center, confidence)
    ensures var untied := Above(values, center) + Below(values, center);
            Coverage(untied, SmallerSide(values, center) + 1) >= confidence ==>
              SmallerSide(values, center) + 1 <= untied / 2
  {
    RankOfPValue(Above(values, center) + Below(values, center), SmallerSide(values, center), confidence);
  }

  lemma {:induction false} HalvedFraction(big: real, small: real, power: real)
    requires power > 0.0 && big >= 2.0 * small
    ensures big / (2.0 * power) >= small / power
  {
    var x, y := big / (2.0 * power), small / power;
    assert x * (2.0 * power) == big && y * power == small;
    assert (x - y) * (2.0 * power) == big - 2.0 * small;
  }

  /** Dropping t tied observations does not lower the coverage. */
  lemma {:induction false} CoverageWithTies(n: nat, k: nat, t: nat)
    ensures Coverage(n + t, k + t) <= Coverage(n, k)
  {
    if t > 0 {
      CoverageWithTies(n, k, t - 1);
      var n', k' := n + t - 1, k + t - 1;
      CombSumPascal(n', k');
      CombSumMonotone(n', k', k' + 1);
      HalvedFraction(CombSum(n' + 1, k' + 1) as real, CombSum(n', k') as real, Pow2(n') as real);
    }
  }

  /** The smaller number of observations that are not strictly on one side of the null. */
  function NotBeyond(values: seq<real>, center: real): nat {
    SidesFit(values, center);
    var larger := if Above(values, center) >= Below(values, center)
                  then Above(values, center) else Below(values, center);
    |values| - larger
  }

  /** The rank one above that number is scanned and qualifies over all observations. */
  predicate AllQualify(values: seq<real>, center: real, confidence: real) {
    var rank := NotBeyond(values, center) + 1;
    rank <= |values| / 2 && Coverage(|values|, rank) >= confidence
  }

  /** The order statistics k from either end exclude the null exactly when k exceeds that number. */
  lemma {:induction false} RankExcludes(values: seq<real>, center: real, k: nat)
    requires 1 <= k <= |values| / 2
    ensures |Sorted(values)| == |values|
    ensures center < Sorted(values)[k - 1] || Sorted(values)[|values| - k] < center <==>
            NotBeyond(values, center) + 1 <= k
  {
    SortedFacts(values, center);
    RankOf(Sorted(values), center, k - 1);
    RankOf(Sorted(values), center, |values| - k);
  }

  /** The interval excludes the null exactly when a qualifying rank exceeds the number of
      observations on one side of the null, counting ties with that side. */
  lemma {:induction false} ExcludesByRank(values: seq<real>, center: real, confidence: real)
    ensures ExcludesNull(values, center, confidence) <==> AllQualify(values, center, confidence)
  {
    var n, rank := |values|, NotBeyond(values, center) + 1;
    SelectedRankBounds(n, confidence, n / 2);
    if rank <= n / 2 {
      SelectedRankIsLargest(n, confidence, n / 2, rank);
    }
    var selected := SelectedRank(n, confidence, n / 2);
    if selected.Some? {
      RankExcludes(values, center, selected.value);
    }
  }

  /** MAIN RESULT.  Whatever the values, an interval that excludes the null comes with a rejecting sign
      test.  The two disagree exactly if the untied observations qualify at the rank one above their smaller
      side while all observations, ties counted against them, do not.  Without ties they always agree. */
  lemma {:induction false} IntervalTestDuality(values: seq<real>, center: real, confidence: real)
    requires 0.0 < confidence < 1.0
    ensures ExcludesNull(values, center, confidence) ==> Rejects(values, center, confidence)
    ensures (Rejects(values, center, confidence) <==> ExcludesNull(values, center, confidence)) <==>
            (SignsQualify(values, center, confidence) ==> AllQualify(values, center, confidence))
    ensures NoTies(values, center) ==>
              (Rejects(values, center, confidence) <==> ExcludesNull(values, center, confidence))
  {
    var above, below := Above(values, center), Below(values, center);
    SidesFit(values, center);
    ExcludesByRank(values, center, confidence);
    RejectsByRank(values, center, confidence);
    CoverageWithTies(above + below, SmallerSide(values, center) + 1, |values| - above - below);
  }

  /** A witness: with a tie the test can reject while the closed interval still contains the null. */
  lemma {:induction false} TieBreaksDuality()
    ensures var values := [1.0, 2.0, 2.0, 2.0, 2.0, 2.0];
            Rejects(values, 1.0, 0.9) && !ExcludesNull(values, 1.0, 0.9)
  {
    var values := [1.0, 2.0, 2.0, 2.0, 2.0, 2.0];
    var t1, t2, t3, t4, t5 := [2.0], [2.0, 2.0], [2.0, 2.0, 2.0], [2.0, 2.0, 2.0, 2.0], [2.0, 2.0, 2.0, 2.0, 2.0];
    assert values[1..] == t5 && t5[1..] == t4 && t4[1..] == t3 && t3[1..] == t2 && t2[1..] == t1;
    assert Above(t2, 1.0) == 2 && Above(t4, 1.0) == 4 && Above(values, 1.0) == 5;
    assert Below(t2, 1.0) == 0 && Below(t4, 1.0) == 0 && Below(values, 1.0) == 0;
    ExcludesByRank(values, 1.0, 0.9);
    assert CombSum(5, 1) == 1 && Pow2(5) == 32;
    assert CombSum(6, 2) == 7 && Pow2(6) == 64;
  }
}

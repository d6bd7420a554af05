/** UniformFromZeroThroughU32: a uniform value in 0..maximum from 32-bit words, by rejection. */
module RejectionSampler {
  import opened Arithmetic
  import opened Common

  /** The low and high halves of the 64-bit product of a word and the extended range. */
  function Low(word: nat, range: nat): nat {
    word * range % WORDS
  }

  function High(word: nat, range: nat): nat {
    word * range / WORDS
  }

  /** The number of words at the low end that would favour some results: 2^32 modulo the range, computed
      as the wrapped 32-bit negation of the range modulo the range. */
  function Threshold(range: Word): nat
    requires range > 0
  {
    (WORDS - range) % range
  }

  predicate Accepted(word: nat, range: Word)
    requires range > 0
  {
    Low(word, range) >= Threshold(range)
  }

  /** The position of the first accepted word from a position on, or the end of the words. */
  function FirstAccepted(words: seq<Word>, from: nat, range: Word): (k: nat)
    requires range > 0 && from <= |words|
    ensures from <= k <= |words|
    ensures k < |words| ==> Accepted(words[k], range)
    ensures forall i :: from <= i < k ==> !Accepted(words[i], range)
    decreases |words| - from
  {
    if from == |words| || Accepted(words[from], range) then from else FirstAccepted(words, from + 1, range)
  }

  /** A word generator; what it will produce is fixed in advance and finite here. */
  class WordSource {
    const words: seq<Word>
    var next: nat

    ghost predicate Valid()
      reads this
    {
      next <= |words|
    }

    constructor (words: seq<Word>)
      ensures Valid() && this.words == words && next == 0
    {
      this.words, next := words, 0;
    }

    method Next() returns (word: Word)
      requires Valid() && next < |words|
      modifies this
      ensures Valid() && word == words[old(next)] && next == old(next) + 1
    {
      word := words[next];
      next := next + 1;
    }

    /** Returns the high half of the first accepted word; None when the words run out first. */
    method UniformFromZeroThroughU32(maximum: Word) returns (result: Option<nat>)
      requires Valid() && next < |words|
      modifies this
      ensures Valid()
      ensures maximum == WORDS - 1 ==> result == Some(words[old(next)]) && next == old(next) + 1
      ensures maximum < WORDS - 1 ==>
                var k := FirstAccepted(words, old(next), maximum + 1);
                if k == |words| then result == None && next == |words|
                else result == Some(High(words[k], maximum + 1)) && next == k + 1
    {
      if maximum == WORDS - 1 {
        var only := Next();
        return Some(only);
      }
      var extendedRange: Word := maximum + 1;
      var word := Next();
      var product := word * extendedRange;
      var low := product % WORDS;
      if low < extendedRange {
        var threshold := Threshold(extendedRange);
        while low < threshold
          invariant Valid() && old(next) < next && word == words[next - 1]
          invariant product == word * extendedRange && low == Low(word, extendedRange)
          invariant FirstAccepted(words, old(next), extendedRange) ==
                    FirstAccepted(words, next - 1, extendedRange)
          decreases |words| - next
        {
          if next == |words| {
            return None;
          }
          word := Next();
          product := word * extendedRange;
          low := product % WORDS;
        }
      } else {
        EarlyTestIsSound(word, extendedRange);
      }
      result := Some(product / WORDS);
    }
  }

  /** The early test never lets through a word that the threshold would reject. */
  lemma {:induction false} EarlyTestIsSound(word: Word, range: Word)
    requires range > 0 && Low(word, range) >= range
    ensures Accepted(word, range)
  {
  }

  // ----- Uniformity

  lemma {:induction false} CeilingQuotient(n: nat, range: nat, w: nat)
    requires range > 0
    ensures w * range >= n <==> w >= (n + range - 1) / range
  {
    var c := (n + range - 1) / range;
    assert c * range + (n + range - 1) % range == n + range - 1;
    if w >= c {
      ProductMonotone(c, w, range);
    } else {
      ProductMonotone(w, c - 1, range);
      assert (c - 1) * range == c * range - range;
    }
  }

  ghost function Window(first: nat, count: nat): set<nat> {
    if count == 0 then {} else Window(first, count - 1) + {first + count - 1}
  }

  lemma {:induction false} WindowFacts(first: nat, count: nat)
    ensures forall w: nat :: w in Window(first, count) <==> first <= w < first + count
    ensures |Window(first, count)| == count
  {
    if count > 0 {
      WindowFacts(first, count - 1);
    }
  }

  /** The accepted words that yield one result are exactly the words whose product falls in one
      window of length WORDS minus the threshold. */
  lemma {:induction false} AcceptedWindow(word: nat, range: Word, result: nat)
    requires range > 0
    ensures Accepted(word, range) && High(word, range) == result <==>
            result * WORDS + Threshold(range) <= word * range < (result + 1) * WORDS
  {
    QuotientRemainder(word * range, WORDS, result);
  }

  lemma {:induction false} ThresholdIsRemainder(range: Word)
    requires range > 0
    ensures Threshold(range) == WORDS % range
    ensures WORDS == WORDS / range * range + Threshold(range)
  {
    var q := WORDS / range;
    assert WORDS == q * range + WORDS % range;
    QuotientRemainder(WORDS, range, q);
    assert q >= 1;
    assert (q - 1) * range == q * range - range;
    QuotientRemainder(WORDS - range, range, q - 1);
  }

  predicate Yields(word: nat, range: Word, result: nat)
    requires range > 0
  {
    Accepted(word, range) && High(word, range) == result
  }

  ghost function WordsYielding(range: Word, result: nat): set<nat>
    requires range > 0
  {
    set w: nat | w < WORDS && Yields(w, range, result)
  }

  /** MAIN RESULT.  Every result in 0..maximum comes from equally many accepted words, namely
      floor(2^32 / (maximum + 1)) of them, and no word yields a result above the maximum. */
  lemma {:induction false} ExactlyUniform(maximum: nat, result: nat)
    requires maximum < WORDS - 1
    ensures result <= maximum ==> |WordsYielding(maximum + 1, result)| == WORDS / (maximum + 1)
    ensures result > maximum ==> WordsYielding(maximum + 1, result) == {}
  {
    var range := maximum + 1;
    var start := result * WORDS + Threshold(range);
    var first, count := (start + range - 1) / range, WORDS / range;
    ThresholdIsRemainder(range);
    assert (result + 1) * WORDS == start + count * range;
    if result <= maximum {
      forall w: nat
        ensures w < WORDS && Yields(w, range, result) <==> first <= w < first + count
      {
        AcceptedWindow(w, range, result);
        CeilingQuotient(start, range, w);
        ShiftedCeiling(start, range, w, count);
        ProductMonotone(result + 1, range, WORDS);
        if w >= WORDS {
          ProductMonotone(WORDS, w, range);
        }
      }
      WindowFacts(first, count);
      assert WordsYielding(range, result) == Window(first, count);
    } else {
      forall w: nat | w < WORDS
        ensures !Yields(w, range, result)
      {
        AcceptedWindow(w, range, result);
        ProductMonotone(w, WORDS - 1, range);
        ProductMonotone(range, result, WORDS);
      }
    }
  }

  lemma {:induction false} ShiftedCeiling(n: nat, range: nat, w: nat, count: nat)
    requires range > 0
    ensures w * range >= n + count * range <==> w >= (n + range - 1) / range + count
  {
    if w >= count {
      CeilingQuotient(n, range, w - count);
      assert (w - count) * range == w * range - count * range;
    } else {
      ProductMonotone(w, count - 1, range);
      assert (count - 1) * range == count * range - range;
    }
  }
}

/** Result shapes, the 32-bit word range, and lists without repeats, shared by the components. */
module Common {

  datatype Option<+T> = None | Some(value: T)

  /** A value, or the error a source routine raises. */
  datatype Result<+T> = Ok(value: T) | Err(error: string)

  type Positive = p: nat | p > 0 witness 1

  const WORDS: nat := 0x1_0000_0000

  type Word = w: nat | w < 0x1_0000_0000

  ghost predicate NoRepeats<T>(s: seq<T>) {
    forall i, j :: 0 <= i < j < |s| ==> s[i] != s[j]
  }

  /** The distinct elements of a list in order of first occurrence. */
  function Distinct<T(==)>(s: seq<T>): seq<T> {
    if s == [] then []
    else
      var front, last := Distinct(s[..|s| - 1]), s[|s| - 1];
      if last in front then front else front + [last]
  }

  lemma {:induction false} DistinctFacts<T>(s: seq<T>)
    ensures NoRepeats(Distinct(s))
    ensures forall x :: x in Distinct(s) <==> x in s
  {
    if s != [] {
      DistinctFacts(s[..|s| - 1]);
      assert s == s[..|s| - 1] + [s[|s| - 1]];
    }
  }

  lemma {:induction false} DistinctOfDistinct<T>(s: seq<T>)
    requires NoRepeats(s)
    ensures Distinct(s) == s
  {
    if s != [] {
      var k := |s| - 1;
      DistinctOfDistinct(s[..k]);
      assert s == s[..k] + [s[k]];
    }
  }
}

/** Pieces of token texts and where they stand. */
module Pieces {

  /** A piece of text stands at a position. */
  predicate At<T(==)>(text: seq<T>, p: nat, piece: seq<T>) {
    p + |piece| <= |text| && forall i :: 0 <= i < |piece| ==> text[p + i] == piece[i]
  }

  lemma {:induction false} AtSlice<T>(text: seq<T>, p: nat, piece: seq<T>)
    ensures At(text, p, piece) <==> p + |piece| <= |text| && text[p..p + |piece|] == piece
  {
  }

  lemma {:induction false} AtParts<T>(text: seq<T>, p: nat, a: seq<T>, b: seq<T>)
    ensures At(text, p, a + b) <==> At(text, p, a) && At(text, p + |a|, b)
  {
    if p + |a + b| <= |text| {
      assert text[p..p + |a + b|] == text[p..p + |a|] + text[p + |a|..p + |a + b|];
      assert (a + b)[..|a|] == a && (a + b)[|a|..] == b;
      AtSlice(text, p, a + b);
      AtSlice(text, p, a);
      AtSlice(text, p + |a|, b);
    }
  }

  lemma {:induction false} AtThree<T>(text: seq<T>, p: nat, a: seq<T>, b: seq<T>, c: seq<T>)
    ensures At(text, p, a + b + c) <==> At(text, p, a) && At(text, p + |a|, b) && At(text, p + |a| + |b|, c)
  {
    AtParts(text, p, a + b, c);
    AtParts(text, p, a, b);
  }

  lemma {:induction false} AtFirst<T>(text: seq<T>, p: nat, piece: seq<T>)
    requires At(text, p, piece) && piece != []
    ensures p < |text| && text[p] == piece[0]
  {
    assert text[p + 0] == piece[0];
  }

  lemma {:induction false} AtRest<T>(text: seq<T>, p: nat, piece: seq<T>)
    requires At(text, p, piece)
    ensures text[p..] == piece + text[p + |piece|..]
  {
  }

  lemma {:induction false} Assoc<T>(a: seq<T>, b: seq<T>, c: seq<T>)
    ensures a + b + c == a + (b + c)
  {
  }
}

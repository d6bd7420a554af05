/** The two call rewriters as a whole: what they make of a text with balanced parentheses, when they
    undo each other, and the loops of the source. */
module CallRewriting {
  import opened Common
  import opened CallForests
  import opened CallWrapping
  import opened CallInsertions

  // ----- The rewriters on such texts

  lemma {:induction false} WrapOfText(f: Forest, text: Tokens)
    requires text == Print(f, [])
    ensures WrapRest(text, 0) == Some(Print(Wrap(f, Elsewhere, false), []))
  {
    assert text[0..] == text;
    WrapPass(text, 0, f, Elsewhere, false, [], []);
  }

  lemma {:induction false} UnwrapOfText(f: Forest, text: Tokens)
    requires text == Print(f, [])
    ensures UnwrapRest(text, 0) == Joined(Unwrap(f, false), Some([]))
  {
    assert text[0..] == text;
    UnwrapPass(text, 0, f, [], Some([]));
  }

  /** MAIN RESULT.  Wrapping never fails on a balanced text, and wrapping the result again changes it
      exactly if some wrapped call reads as the arguments of a name in front of it. */
  lemma {:induction false} WrapTextTwice(f: Forest, text: Tokens)
    requires text == Print(f, [])
    ensures WrapRest(text, 0).Some?
    ensures WrapRest(WrapRest(text, 0).value, 0) == WrapRest(text, 0) <==> !Reopens(f, Elsewhere, false)
  {
    var once := Wrap(f, Elsewhere, false);
    WrapOfText(f, text);
    WrapOfText(once, Print(once, []));
    WrapTwice(f, Elsewhere, false);
    var twice := Wrap(once, Elsewhere, false);
    if Print(twice, []) == Print(once, []) {
      PrintIsInjective(twice, once, [], []);
    }
  }

  /** MAIN RESULT.  Unwrapping the wrapped text gives back the text exactly if no parenthesis of the
      text reads as a wrapped call, apart from those taken for an argument parenthesis. */
  lemma {:induction false} WrapTextUndone(f: Forest, text: Tokens)
    requires text == Print(f, [])
    ensures WrapRest(text, 0).Some?
    ensures UnwrapRest(WrapRest(text, 0).value, 0) == Some(text) <==> !Broken(f, Elsewhere, false, false)
  {
    var once := Wrap(f, Elsewhere, false);
    WrapOfText(f, text);
    UnwrapOfText(once, Print(once, []));
    WrapUnwrap(f, Elsewhere, false, false);
    var undone := Unwrap(once, false);
    if undone.Some? && Print(undone.value, []) == text {
      PrintIsInjective(undone.value, f, [], []);
    }
  }

  /** MAIN RESULT.  On a balanced text in which the name is always called and no call is wrapped yet,
      the two rewriters are inverse and wrapping twice is wrapping once. */
  lemma {:induction false} CalledTextIsSafe(f: Forest, text: Tokens)
    requires text == Print(f, []) && AlwaysCalled(f) && NothingWrapped(f)
    ensures WrapRest(text, 0).Some?
    ensures WrapRest(WrapRest(text, 0).value, 0) == WrapRest(text, 0)
    ensures UnwrapRest(WrapRest(text, 0).value, 0) == Some(text)
  {
    CalledIsSafe(f, Elsewhere, false, false);
    WrapTextTwice(f, text);
    WrapTextUndone(f, text);
  }

  // ----- The loops of the source

  /** Scanning the end of a text finds the same as scanning that end alone. */
  lemma {:induction false} CloseShift(a: Tokens, s: Tokens, cursor: nat, depth: nat)
    ensures CloseFrom(a + s, |a| + cursor, depth) ==
      match CloseFrom(s, cursor, depth) case None => None case Some(end) => Some(|a| + end)
    decreases if cursor < |s| then |s| - cursor else 0
  {
    if depth > 0 && cursor < |s| {
      assert (a + s)[|a| + cursor] == s[cursor];
      var now := if s[cursor] == LPar then depth + 1 else if s[cursor] == RPar then depth - 1 else depth;
      CloseShift(a, s, cursor + 1, now);
    }
  }

  lemma {:induction false} SkipShift(a: Tokens, s: Tokens, p: nat)
    ensures SkipBlanks(a + s, |a| + p) == |a| + SkipBlanks(s, p)
    decreases if p < |s| then |s| - p else 0
  {
    if p < |s| {
      assert (a + s)[|a| + p] == s[p];
      SkipShift(a, s, p + 1);
    }
  }

  lemma {:induction false} SamePrefix(a: Tokens, b: Tokens, p: nat)
    requires p <= |a| && p <= |b| && forall i :: 0 <= i < p ==> a[i] == b[i]
    ensures InlineBefore(a, p) == InlineBefore(b, p) && MarkBefore(a, p) == MarkBefore(b, p)
  {
    if p > 0 {
      SamePrefix(a, b, p - 1);
    }
  }

  method MatchingParen(text: Tokens, start: nat) returns (r: Option<nat>)
    ensures r == CloseFrom(text, start, 1)
  {
    var depth, cursor := 1, start;
    while cursor < |text| && depth > 0
      invariant 0 <= depth && start <= cursor
      invariant CloseFrom(text, start, 1) == CloseFrom(text, cursor, depth)
      decreases |text| - cursor
    {
      if text[cursor] == LPar {
        depth := depth + 1;
      } else if text[cursor] == RPar {
        depth := depth - 1;
      }
      cursor := cursor + 1;
    }
    r := if depth > 0 then None else Some(cursor);
  }

  /** A step, by what is found in the text that it works on. */
  lemma {:induction false} WrapStepInPlace(front: Tokens, name: Token, behind: Tokens, opening: nat, m: Mark, inl: bool)
    requires |front| > 0 && opening >= |front|
    ensures var text := front + behind;
      WrapStep(name, behind, opening - |front|, m, inl) ==
        if m == OpenedStar then Some([name] + behind)
        else match CloseFrom(text, opening + 1, 1)
          case None => None
          case Some(cursor) =>
            var end := cursor - |front|;
            if inl && Has(text, SkipBlanks(text, cursor), Text(Brace)) then Some([name] + behind)
            else Some([LPar, Text(Star), name] + behind[..end] + [RPar] + behind[end..])
  {
    CloseShift(front, behind, opening - |front| + 1, 1);
    var close := CloseFrom(behind, opening - |front| + 1, 1);
    if close.Some? {
      SkipShift(front, behind, close.value);
    }
  }

  function InFront(before: Tokens, s: Option<Tokens>): Option<Tokens> {
    match s case None => None case Some(x) => Some(before + x)
  }

  lemma {:induction false} WholeStep(text: Tokens, before: Tokens, name: Token, behind: Tokens, opening: nat,
                                     m: Mark, inl: bool)
    requires text == before + [name] + behind && opening > |before|
    ensures InFront(before, WrapStep(name, behind, opening - (|before| + 1), m, inl)) ==
      if m == OpenedStar then Some(text)
      else match CloseFrom(text, opening + 1, 1)
        case None => None
        case Some(cursor) =>
          if inl && Has(text, SkipBlanks(text, cursor), Text(Brace)) then Some(text)
          else Some(text[..|before|] + [LPar, Text(Star)] + text[|before|..cursor] + [RPar] + text[cursor..])
  {
    WrapStepInPlace(before + [name], name, behind, opening, m, inl);
    KeepToken(before, name, behind);
    var close := CloseFrom(text, opening + 1, 1);
    if close.Some? {
      Resplice(text, before, name, behind, close.value);
    }
  }

  /** One turn of the wrapping loop, on a text that keeps `before` and has `behind` after the name. */
  method WrapOne(text: Tokens, p: nat, opening: nat, ghost before: Tokens, ghost behind: Tokens)
    returns (r: Option<Tokens>)
    requires p < |text| && text == before + [text[p]] + behind && |before| == p && opening > p
    ensures r ==
      InFront(before, WrapStep(text[p], behind, opening - (p + 1), MarkBefore(text, p), InlineBefore(text, p)))
  {
    WholeStep(text, before, text[p], behind, opening, MarkBefore(text, p), InlineBefore(text, p));
    if p >= 2 && text[p - 2] == LPar && text[p - 1] == Text(Star) {
      return Some(text);
    }
    var cursor := MatchingParen(text, opening + 1);
    if cursor.None? {
      return None;
    }
    var following := SkipBlanks(text, cursor.value);
    if following < |text| && text[following] == Text(Brace) && InlineBefore(text, p) {
      return Some(text);
    }
    r := Some(text[..p] + [LPar, Text(Star)] + text[p..cursor.value] + [RPar] + text[cursor.value..]);
  }

  lemma {:induction false} Resplice(text: Tokens, before: Tokens, name: Token, behind: Tokens, cursor: nat)
    requires text == before + [name] + behind && |before| < cursor <= |text|
    ensures var p, end := |before|, cursor - (|before| + 1);
      text[..p] + [LPar, Text(Star)] + text[p..cursor] + [RPar] + text[cursor..] ==
        before + ([LPar, Text(Star), name] + behind[..end] + [RPar] + behind[end..])
  {
    var p, end := |before|, cursor - (|before| + 1);
    var x, y := behind[..end], behind[end..];
    assert text[..p] == before && text[p..cursor] == [name] + x && text[cursor..] == y;
    Regrouped(before, name, x, y);
  }

  lemma {:induction false} Regrouped(before: Tokens, name: Token, x: Tokens, y: Tokens)
    ensures before + [LPar, Text(Star)] + ([name] + x) + [RPar] + y ==
      before + ([LPar, Text(Star), name] + x + [RPar] + y)
  {
  }

  /** dereference_pointer_calls: the calls of the text it is given, last first, each wrapped in the
      text that the later ones have left.  On balanced text that writes `(*` and `)` around exactly the
      calls that the text shows. */
  method DereferencePointerCalls(text: Tokens) returns (r: Result<Tokens>)
    ensures r == match WrapRest(text, 0) case None => Err("unbalanced call") case Some(s) => Ok(s)
    ensures Balanced(text, 0) ==> forall calls :: CallsOf(text, calls) ==> r == Ok(Inserted(text, calls, 0, |text|, 0))
  {
    forall calls | Balanced(text, 0) && CallsOf(text, calls)
      ensures WrapRest(text, 0) == Some(Inserted(text, calls, 0, |text|, 0))
    {
      WrappingInserts(text, calls);
    }
    var current, p := text, |text|;
    ghost var behind: Tokens := [];
    assert text == text[..p] + behind;
    while p > 0
      invariant p <= |text| && WrapRest(text, p) == Some(behind) && current == text[..p] + behind
      decreases p
    {
      p := p - 1;
      assert text[..p + 1] == text[..p] + [text[p]];
      if CallAt(text, p) {
        SamePrefix(current, text, p);
        var next := WrapOne(current, p, SkipBlanks(text, p + 1), text[..p], behind);
        if next.None? {
          WrapFails(text, p);
          return Err("unbalanced call");
        }
        current := next.value;
        behind := WrapRest(text, p).value;
      } else {
        KeepToken(text[..p], text[p], behind);
        behind := [text[p]] + behind;
      }
    }
    assert text[..0] + behind == behind;
    r := Ok(current);
  }

  lemma {:induction false} KeepToken(before: Tokens, token: Token, behind: Tokens)
    ensures before + [token] + behind == before + ([token] + behind)
  {
  }

  lemma {:induction false} WrapFails(text: Tokens, p: nat)
    requires p <= |text| && WrapRest(text, p) == None
    ensures WrapRest(text, 0) == None
  {
    if p > 0 {
      WrapFails(text, p - 1);
    }
  }

  /** Behind the match at a position. */
  function MatchEnd(text: Tokens, p: nat): (e: nat)
    ensures p + 3 < e
  {
    SkipBlanks(text, p + 3) + 1
  }

  /** No match starts in this stretch. */
  predicate Quiet(text: Tokens, p: nat, q: nat) {
    forall m {:trigger WrappedAt(text, m)} :: p <= m < q ==> !WrappedAt(text, m)
  }

  /** The matches of a search that has come to a position: each behind the one before, and no other
      between them. */
  predicate Found(text: Tokens, starts: seq<nat>, p: nat)
    decreases |starts|
  {
    p <= |text| &&
    if starts == [] then Quiet(text, 0, p)
    else
      var m := starts[|starts| - 1];
      && WrappedAt(text, m) && MatchEnd(text, m) <= p && Quiet(text, MatchEnd(text, m), p)
      && Found(text, starts[..|starts| - 1], m)
  }

  /** Where no match starts the text stays. */
  lemma {:induction false} KeptUpTo(text: Tokens, p: nat, q: nat)
    requires p <= q <= |text| && Quiet(text, p, q)
    ensures UnwrapRest(text, p) == InFront(text[p..q], UnwrapRest(text, q))
    decreases q - p
  {
    var behind := UnwrapRest(text, q);
    if p < q {
      KeptUpTo(text, p + 1, q);
      UnwrapSkips(text, p);
      OneMore(text, p, q, behind);
    } else {
      Nothing(text[p..q], behind);
    }
  }

  lemma {:induction false} OneMore(text: Tokens, p: nat, q: nat, behind: Option<Tokens>)
    requires p < q <= |text|
    ensures InFront(text[p..q], behind) == Push(text[p], InFront(text[p + 1..q], behind))
  {
    if behind.Some? {
      assert text[p..q] == [text[p]] + text[p + 1..q];
      assert [text[p]] + text[p + 1..q] + behind.value == [text[p]] + (text[p + 1..q] + behind.value);
    }
  }

  lemma {:induction false} Nothing(piece: Tokens, behind: Option<Tokens>)
    requires |piece| == 0
    ensures InFront(piece, behind) == behind
  {
    assert behind.Some? ==> piece + behind.value == behind.value;
  }

  lemma {:induction false} UnwrapFails(text: Tokens, starts: seq<nat>, p: nat)
    requires Found(text, starts, p) && UnwrapRest(text, p) == None
    ensures UnwrapRest(text, 0) == None
    decreases |starts|
  {
    if starts == [] {
      KeptUpTo(text, 0, p);
    } else {
      var m := starts[|starts| - 1];
      KeptUpTo(text, MatchEnd(text, m), p);
      UnwrapFails(text, starts[..|starts| - 1], m);
    }
  }

  /** One turn of the unwrapping loop, on a text with `behind` behind the last parenthesis of a match. */
  method UnwrapOne(text: Tokens, p: nat, end: nat, ghost front: Tokens, ghost behind: Tokens)
    returns (r: Option<Tokens>)
    requires text == front + behind && |front| == end && p + 3 < end
    ensures r == InFront(front[..p], UnwrapStep(front[p + 2..], behind))
  {
    CloseShift(front, behind, 0, 1);
    var cursor := MatchingParen(text, end);
    if cursor.None? || cursor.value >= |text| || text[cursor.value] != RPar {
      return None;
    }
    Shortened(front, behind, p, cursor.value);
    r := Some(text[..p] + text[p + 2..cursor.value] + text[cursor.value + 1..]);
  }

  lemma {:induction false} Shortened(front: Tokens, behind: Tokens, p: nat, cursor: nat)
    requires p + 2 <= |front| <= cursor < |front + behind|
    ensures var text, end := front + behind, cursor - |front|;
      text[..p] + text[p + 2..cursor] + text[cursor + 1..] ==
        front[..p] + (front[p + 2..] + behind[..end] + behind[end + 1..])
  {
    var text, end := front + behind, cursor - |front|;
    assert text[p + 2..cursor] == front[p + 2..] + behind[..end] && text[cursor + 1..] == behind[end + 1..];
  }

  method FindMatches(text: Tokens) returns (starts: seq<nat>)
    ensures Found(text, starts, |text|)
  {
    starts := [];
    var p: nat := 0;
    while p < |text|
      invariant Found(text, starts, p)
      decreases |text| - p
    {
      if WrappedAt(text, p) {
        assert (starts + [p])[..|starts|] == starts;
        starts, p := starts + [p], SkipBlanks(text, p + 3) + 1;
      } else {
        p := p + 1;
      }
    }
  }

  /** undereference_proxy_calls: the matches of the text it is given, last first, each unwrapped in the
      text that the later ones have left. */
  method UndereferenceProxyCalls(text: Tokens) returns (r: Result<Tokens>)
    ensures r == match UnwrapRest(text, 0) case None => Err("malformed proxy dereference") case Some(s) => Ok(s)
  {
    var starts := FindMatches(text);
    var current, i := text, |starts|;
    ghost var q: nat, behind: Tokens := |text|, [];
    assert text[..q] + behind == text && starts[..i] == starts;
    while i > 0
      invariant 0 <= i <= |starts| && Found(text, starts[..i], q)
      invariant UnwrapRest(text, q) == Some(behind) && current == text[..q] + behind
      decreases i
    {
      i := i - 1;
      assert starts[..i + 1][i] == starts[i] && starts[..i + 1][..i] == starts[..i];
      var next := UnwrapTurn(text, starts[i], current, q, behind);
      q := starts[i];
      if next.None? {
        UnwrapFails(text, starts[..i], q);
        return Err("malformed proxy dereference");
      }
      current, behind := next.value, UnwrapRest(text, q).value;
    }
    KeptUpTo(text, 0, q);
    assert text[0..q] == text[..q];
    r := Ok(current);
  }

  /** One match of the loop, in the text that the matches from q on have left. */
  method UnwrapTurn(text: Tokens, m: nat, current: Tokens, ghost q: nat, ghost behind: Tokens)
    returns (r: Option<Tokens>)
    requires WrappedAt(text, m) && MatchEnd(text, m) <= q <= |text| && Quiet(text, MatchEnd(text, m), q)
    requires UnwrapRest(text, q) == Some(behind) && current == text[..q] + behind
    ensures m <= |text| && r == InFront(text[..m], UnwrapRest(text, m))
  {
    var end := SkipBlanks(text, m + 3) + 1;
    KeptUpTo(text, end, q);
    Rejoin(text, end, q, behind);
    UnwrapStepFrom(text, m, end, text[end..q] + behind);
    r := UnwrapOne(current, m, end, text[..end], text[end..q] + behind);
  }

  lemma {:induction false} Rejoin(text: Tokens, p: nat, q: nat, behind: Tokens)
    requires p <= q <= |text|
    ensures text[..q] + behind == text[..p] + (text[p..q] + behind)
  {
  }

  lemma {:induction false} UnwrapStepFrom(text: Tokens, m: nat, end: nat, behind: Tokens)
    requires WrappedAt(text, m) && end == MatchEnd(text, m) <= |text| && UnwrapRest(text, end) == Some(behind)
    ensures text[..end][..m] == text[..m]
    ensures UnwrapRest(text, m) == UnwrapStep(text[..end][m + 2..], behind)
  {
    assert text[..end][m + 2..] == text[m + 2..end];
  }
}

/** What dereference_pointer_calls makes of a text with balanced parentheses, told on the text alone: which
    calls are wrapped, and where the tokens go that wrapping inserts. */
module CallInsertions {
  import opened Common
  import opened CallForests
  import opened CallWrapping

  // ----- Texts with balanced parentheses

  predicate Balanced(text: Tokens, depth: nat) {
    if text == [] then depth == 0
    else if text[0] == LPar then Balanced(text[1..], depth + 1)
    else if text[0] == RPar then depth > 0 && Balanced(text[1..], depth - 1)
    else Balanced(text[1..], depth)
  }

  /** A text up to where a depth closes is a printed forest. */
  lemma {:induction false} Parsed(text: Tokens, depth: nat) returns (f: Forest, tail: Tokens)
    requires Balanced(text, depth)
    ensures text == Print(f, tail)
    ensures if depth == 0 then tail == [] else tail != [] && tail[0] == RPar && Balanced(tail[1..], depth - 1)
    decreases |text|
  {
    if text == [] || text[0] == RPar {
      f, tail := End, text;
    } else if text[0] == LPar {
      var g, rest := Parsed(text[1..], depth + 1);
      assert rest == [RPar] + rest[1..];
      var r;
      r, tail := Parsed(rest[1..], depth);
      f := Paren(g, r);
      assert text == [LPar] + text[1..];
    } else {
      var r;
      r, tail := Parsed(text[1..], depth);
      f := Plain(text[0].word, r);
      assert text == [text[0]] + text[1..];
    }
  }

  lemma {:induction false} PrintedIsBalanced(f: Forest, tail: Tokens, depth: nat)
    requires Balanced(tail, depth)
    ensures Balanced(Print(f, tail), depth)
    decreases f
  {
    match f
    case End =>
    case Plain(w, r) =>
      PrintedIsBalanced(r, tail, depth);
      assert Print(f, tail)[1..] == Print(r, tail);
    case Paren(g, r) =>
      var rest := [RPar] + Print(r, tail);
      PrintedIsBalanced(r, tail, depth);
      assert rest[1..] == Print(r, tail);
      PrintedIsBalanced(g, rest, depth + 1);
      assert Print(f, tail)[1..] == Print(g, rest);
  }

  /** The forest of a text, if its parentheses are balanced, is unique. */
  lemma {:induction false} PrintIsInjective(f: Forest, g: Forest, a: Tokens, b: Tokens)
    requires Print(f, a) == Print(g, b) && Closes(a) && Closes(b)
    ensures f == g && a == b
    decreases f
  {
    var s := Print(f, a);
    assert g.End? ==> s == b;
    assert g.Plain? ==> s[0] == Text(g.word);
    assert g.Paren? ==> s[0] == LPar;
    match f
    case End =>
    case Plain(w, r) =>
      assert s[0] == Text(w) && g.Plain?;
      assert Print(r, a) == s[1..] == Print(g.rest, b);
      PrintIsInjective(r, g.rest, a, b);
    case Paren(x, r) =>
      assert s[0] == LPar && g.Paren?;
      var c, d := [RPar] + Print(r, a), [RPar] + Print(g.rest, b);
      assert Print(x, c) == s[1..] == Print(g.inner, d);
      PrintIsInjective(x, g.inner, c, d);
      assert Print(r, a) == c[1..] == Print(g.rest, b);
      PrintIsInjective(r, g.rest, a, b);
  }

  /** MAIN RESULT.  Exactly the texts with balanced parentheses are printed forests. */
  lemma {:induction false} BalancedIsPrinted(text: Tokens)
    ensures Balanced(text, 0) <==> exists f :: Print(f, []) == text
  {
    if Balanced(text, 0) {
      var f, tail := Parsed(text, 0);
      assert Print(f, []) == text;
    }
    if f :| Print(f, []) == text {
      PrintedIsBalanced(f, [], 0);
    }
  }

  // ----- Calls in a text

  /** Blanks and newlines, nothing else. */
  ghost predicate AllBlank(text: Tokens, from: nat, to: nat) {
    to <= |text| && forall i :: from <= i < to ==> text[i] == Text(Blank) || text[i] == Text(Newline)
  }

  /** Behind the name at p come blanks, and from q to e a parenthesis with its partner. */
  ghost predicate GroupBehind(text: Tokens, p: nat, q: nat, e: nat) {
    && p < q && q + 1 < e <= |text|
    && AllBlank(text, p + 1, q) && text[q] == LPar
    && Balanced(text[q + 1..e - 1], 0) && text[e - 1] == RPar
  }

  /** Behind a position come blanks and a brace. */
  ghost predicate BraceBehind(text: Tokens, e: nat) {
    exists b :: e <= b < |text| && AllBlank(text, e, b) && text[b] == Text(Brace)
  }

  /** `inline` stands in front of a position on its line. */
  ghost predicate InlineInFront(text: Tokens, p: nat)
    requires p <= |text|
  {
    exists i :: 0 <= i < p && text[i] == Text(Inline) && forall j :: i < j < p ==> text[j] != Text(Newline)
  }

  /** The name at p heads a call that ends at e and gets wrapped: it is not dereferenced already, and it does not
      head an inline definition. */
  ghost predicate WrapsUpTo(text: Tokens, p: nat, e: nat) {
    && p < e <= |text| && text[p].Text? && text[p].word.Callee?
    && (exists q :: GroupBehind(text, p, q, e))
    && !(p >= 2 && text[p - 2] == LPar && text[p - 1] == Text(Star))
    && !(InlineInFront(text, p) && BraceBehind(text, e))
  }

  /** The calls of a text that get wrapped, each with its end. */
  type Calls = map<nat, nat>

  ghost predicate CallsOf(text: Tokens, calls: Calls) {
    forall p: nat, e: nat :: WrapsUpTo(text, p, e) <==> p in calls && calls[p] == e
  }

  /** The calls of a stretch that end at a position. */
  ghost function Ending(calls: Calls, lo: nat, hi: nat, e: nat): set<nat> {
    set p | p in calls && lo <= p < hi && calls[p] == e
  }

  ghost function Closing(n: nat): Tokens {
    if n == 0 then [] else Closing(n - 1) + [RPar]
  }

  /** A token with what is inserted in front of it. */
  ghost function Here(text: Tokens, calls: Calls, i: nat): Tokens
    requires i < |text|
  {
    (if i in calls then [LPar, Text(Star)] else []) + [text[i]]
  }

  /** A stretch of the text from a position on, with the insertions of its own calls: `)` where a call ends,
      `(*` where one starts. */
  ghost function Inserted(text: Tokens, calls: Calls, lo: nat, hi: nat, i: nat): Tokens
    requires i <= hi <= |text|
    decreases hi - i
  {
    Closing(|Ending(calls, lo, hi, i)|) +
    if i == hi then [] else Here(text, calls, i) + Inserted(text, calls, lo, hi, i + 1)
  }

  // ----- Joining stretches

  /** Calls end behind their start, and those of the stretch end in it. */
  ghost predicate Inside(calls: Calls, lo: nat, hi: nat) {
    forall p :: p in calls ==> p < calls[p] && (lo <= p < hi ==> calls[p] <= hi)
  }

  lemma {:induction false} SameEnding(calls: Calls, lo: nat, hi: nat, lo': nat, hi': nat, e: nat)
    requires forall p :: p in calls && calls[p] == e ==> (lo <= p < hi <==> lo' <= p < hi')
    ensures Ending(calls, lo, hi, e) == Ending(calls, lo', hi', e)
  {
  }

  /** Behind the calls of the first stretch only those of the second matter. */
  lemma {:induction false} SecondStretch(text: Tokens, calls: Calls, lo: nat, mid: nat, hi: nat, i: nat)
    requires lo <= mid < i <= hi <= |text| && Inside(calls, lo, mid)
    ensures Inserted(text, calls, lo, hi, i) == Inserted(text, calls, mid, hi, i)
    decreases hi - i
  {
    SameEnding(calls, lo, hi, mid, hi, i);
    if i < hi {
      SecondStretch(text, calls, lo, mid, hi, i + 1);
    }
  }

  lemma {:induction false} Grouped(a: Tokens, b: Tokens, x: Tokens, y: Tokens)
    ensures a + (b + (x + y)) == a + (b + x) + y
  {
  }

  /** Where two stretches meet. */
  lemma {:induction false} JoinsAt(text: Tokens, calls: Calls, lo: nat, mid: nat, hi: nat)
    requires lo <= mid <= hi <= |text| && Inside(calls, lo, mid)
    ensures Inserted(text, calls, lo, hi, mid) ==
            Inserted(text, calls, lo, mid, mid) + Inserted(text, calls, mid, hi, mid)
  {
    SameEnding(calls, lo, hi, lo, mid, mid);
    assert Ending(calls, mid, hi, mid) == {};
    if mid < hi {
      SecondStretch(text, calls, lo, mid, hi, mid + 1);
    }
  }

  /** Two stretches are joined by writing them one after the other, if no call of the first reaches into the
      second. */
  lemma {:induction false} Joins(text: Tokens, calls: Calls, lo: nat, mid: nat, hi: nat, i: nat)
    requires lo <= i <= mid <= hi <= |text| && Inside(calls, lo, mid)
    ensures Inserted(text, calls, lo, hi, i) == Inserted(text, calls, lo, mid, i) + Inserted(text, calls, mid, hi, mid)
    decreases mid - i
  {
    if i == mid {
      JoinsAt(text, calls, lo, mid, hi);
    } else {
      SameEnding(calls, lo, hi, lo, mid, i);
      Joins(text, calls, lo, mid, hi, i + 1);
      Grouped(Closing(|Ending(calls, lo, mid, i)|), Here(text, calls, i), Inserted(text, calls, lo, mid, i + 1),
              Inserted(text, calls, mid, hi, mid));
    }
  }

  /** One more call in front, with its end at the end of the stretch. */
  lemma {:induction false} OneMoreEnds(text: Tokens, calls: Calls, p: nat, e: nat, i: nat)
    requires p < i <= e <= |text| && p in calls && calls[p] == e
    ensures Inserted(text, calls, p, e, i) == Inserted(text, calls, p + 1, e, i) + [RPar]
    decreases e - i
  {
    if i < e {
      SameEnding(calls, p, e, p + 1, e, i);
      OneMoreEnds(text, calls, p, e, i + 1);
      Grouped(Closing(|Ending(calls, p, e, i)|), Here(text, calls, i), Inserted(text, calls, p + 1, e, i + 1), [RPar]);
    } else {
      var before := Ending(calls, p + 1, e, e);
      assert Ending(calls, p, e, e) == before + {p};
      assert Closing(|before| + 1) == Closing(|before|) + [RPar];
    }
  }

  /** A stretch that starts with a call that ends with it, and one that starts with another token. */
  lemma {:induction false} StartsWith(text: Tokens, calls: Calls, p: nat, e: nat)
    requires p < e <= |text| && Inside(calls, p, p)
    ensures p in calls && calls[p] == e ==>
      Inserted(text, calls, p, e, p) == [LPar, Text(Star), text[p]] + Inserted(text, calls, p + 1, e, p + 1) + [RPar]
    ensures p !in calls ==>
      Inserted(text, calls, p, e, p) == [text[p]] + Inserted(text, calls, p + 1, e, p + 1)
  {
    assert Ending(calls, p, e, p) == {};
    if p in calls && calls[p] == e {
      OneMoreEnds(text, calls, p, e, p + 1);
      Grouped([], [LPar, Text(Star), text[p]], Inserted(text, calls, p + 1, e, p + 1), [RPar]);
    } else if p !in calls {
      WithoutFirst(text, calls, p, e, p + 1);
    }
  }

  lemma {:induction false} WithoutFirst(text: Tokens, calls: Calls, p: nat, e: nat, i: nat)
    requires p < i <= e <= |text| && p !in calls
    ensures Inserted(text, calls, p, e, i) == Inserted(text, calls, p + 1, e, i)
    decreases e - i
  {
    SameEnding(calls, p, e, p + 1, e, i);
    if i < e {
      WithoutFirst(text, calls, p, e, i + 1);
    }
  }

  // ----- What the text shows of a printed forest

  /** Behind blanks an opening parenthesis is the first of the forest. */
  lemma {:induction false} OpeningIs(text: Tokens, p: nat, r: Forest, tail: Tokens, q: nat)
    requires Rests(text, p, Print(r, tail)) && Closes(tail)
    requires p <= q < |text| && AllBlank(text, p, q) && text[q] == LPar
    ensures Opens(r) && q == p + Blanks(r)
    decreases r
  {
    assert text[p] == text[p..][0];
    match r
    case End =>
    case Plain(w, s) =>
      First(text, p, Text(w), Print(s, tail));
      OpeningIs(text, p + 1, s, tail, q);
    case Paren(g, s) => First(text, p, LPar, Print(g, [RPar] + Print(s, tail)));
  }

  lemma {:induction false} BlanksAre(text: Tokens, p: nat, r: Forest, tail: Tokens)
    requires Rests(text, p, Print(r, tail)) && Closes(tail)
    ensures AllBlank(text, p, p + Blanks(r))
    decreases r
  {
    if r.Plain? && IsBlank(r.word) {
      First(text, p, Text(r.word), Print(r.rest, tail));
      BlanksAre(text, p + 1, r.rest, tail);
    }
  }

  /** A balanced stretch leaves a depth open that was open in front of it. */
  lemma {:induction false} BalancedPasses(text: Tokens, a: nat, b: nat, depth: nat)
    requires a <= b <= |text| && Balanced(text[a..b], depth)
    ensures CloseFrom(text, a, depth + 1) == CloseFrom(text, b, 1)
    decreases b - a
  {
    if a < b {
      assert text[a..b][0] == text[a] && text[a..b][1..] == text[a + 1..b];
      BalancedPasses(text, a + 1, b,
                     if text[a] == LPar then depth + 1 else if text[a] == RPar then depth - 1 else depth);
    }
  }

  lemma {:induction false} GroupCloses(text: Tokens, q: nat, e: nat)
    requires q + 1 < e <= |text| && Balanced(text[q + 1..e - 1], 0) && text[e - 1] == RPar
    ensures CloseFrom(text, q + 1, 1) == Some(e)
  {
    BalancedPasses(text, q + 1, e - 1, 0);
  }

  /** A name has one group behind it at most. */
  lemma {:induction false} OneGroup(text: Tokens, p: nat, q: nat, e: nat, q': nat, e': nat)
    requires GroupBehind(text, p, q, e) && GroupBehind(text, p, q', e')
    ensures q == q' && e == e'
  {
    GroupCloses(text, q, e);
    GroupCloses(text, q', e');
  }

  /** The first parenthesis of a printed forest is balanced inside. */
  lemma {:induction false} WithinIsBalanced(text: Tokens, p: nat, r: Forest, tail: Tokens, q: nat, e: nat)
    requires Rests(text, p, Print(r, tail)) && Opens(r) && q == p + Blanks(r)
    requires |Print(Behind(r), tail)| <= |text| && e == Where(text, Print(Behind(r), tail))
    ensures q + 1 < e && text[q] == LPar && Balanced(text[q + 1..e - 1], 0) && text[e - 1] == RPar
  {
    var rest := [RPar] + Print(Behind(r), tail);
    LeadAt(text, p, r, tail, q);
    OpensAt(text, p, r, tail, q);
    After(text, q + 1, Within(r), rest);
    First(text, Where(text, rest), RPar, Print(Behind(r), tail));
    Retail(Within(r), rest, []);
    var inside := Print(Within(r), rest);
    assert text[q + 1..e - 1] == inside[..|inside| - |rest|] == Cut(inside, |rest|, []);
    PrintedIsBalanced(Within(r), [], 0);
  }

  lemma {:induction false} OpensAt(text: Tokens, p: nat, r: Forest, tail: Tokens, q: nat)
    requires Rests(text, p, Print(r, tail)) && Opens(r) && q == p + Blanks(r)
    ensures Has(text, q, LPar)
    decreases r
  {
    match r
    case Plain(w, s) =>
      First(text, p, Text(w), Print(s, tail));
      OpensAt(text, p + 1, s, tail, q);
    case Paren(g, s) => First(text, p, LPar, Print(g, [RPar] + Print(s, tail)));
  }

  lemma {:induction false} GroupShown(text: Tokens, p: nat, r: Forest, tail: Tokens)
    requires Rests(text, p + 1, Print(r, tail)) && Closes(tail) && Opens(r)
    ensures |Print(Behind(r), tail)| <= |text|
    ensures GroupBehind(text, p, p + 1 + Blanks(r), Where(text, Print(Behind(r), tail)))
  {
    ArgsClose(text, p + 1, r, tail);
    BlanksAre(text, p + 1, r, tail);
    WithinIsBalanced(text, p + 1, r, tail, p + 1 + Blanks(r), Where(text, Print(Behind(r), tail)));
  }

  /** Behind a name the text shows a group exactly if the forest opens, and then it ends with the arguments. */
  lemma {:induction false} GroupIs(text: Tokens, p: nat, r: Forest, tail: Tokens, e: nat)
    requires Rests(text, p + 1, Print(r, tail)) && Closes(tail)
    ensures Opens(r) ==> |Print(Behind(r), tail)| <= |text|
    ensures (exists q :: GroupBehind(text, p, q, e)) <==> Opens(r) && e == Where(text, Print(Behind(r), tail))
  {
    if Opens(r) {
      GroupShown(text, p, r, tail);
    }
    if q :| GroupBehind(text, p, q, e) {
      OpeningIs(text, p + 1, r, tail, q);
      OneGroup(text, p, q, e, p + 1 + Blanks(r), Where(text, Print(Behind(r), tail)));
    }
  }

  lemma {:induction false} BraceIs(text: Tokens, e: nat, b: Forest, tail: Tokens)
    requires Rests(text, e, Print(b, tail)) && Closes(tail)
    ensures BraceBehind(text, e) <==> Braces(b)
    decreases b
  {
    SkipIs(text, e, b, tail);
    BlanksAre(text, e, b, tail);
    if Braces(b) {
      assert text[e + Blanks(b)] == Text(Brace);
    }
    if x :| e <= x < |text| && AllBlank(text, e, x) && text[x] == Text(Brace) {
      BraceFound(text, e, b, tail, x);
    }
  }

  lemma {:induction false} BraceFound(text: Tokens, e: nat, b: Forest, tail: Tokens, x: nat)
    requires Rests(text, e, Print(b, tail)) && Closes(tail)
    requires e <= x < |text| && AllBlank(text, e, x) && text[x] == Text(Brace)
    ensures Braces(b)
    decreases b
  {
    assert text[e] == text[e..][0];
    match b
    case End =>
    case Plain(w, s) =>
      First(text, e, Text(w), Print(s, tail));
      if x > e {
        BraceFound(text, e + 1, s, tail, x);
      }
    case Paren(g, s) => First(text, e, LPar, Print(g, [RPar] + Print(s, tail)));
  }

  lemma {:induction false} InlineIs(text: Tokens, p: nat)
    requires p <= |text|
    ensures InlineInFront(text, p) <==> InlineBefore(text, p)
  {
    if p > 0 {
      InlineIs(text, p - 1);
      if InlineBefore(text, p) {
        if text[p - 1] == Text(Inline) {
          assert InlineInFront(text, p);
        } else {
          var i :| 0 <= i < p - 1 && text[i] == Text(Inline) && forall j :: i < j < p - 1 ==> text[j] != Text(Newline);
          assert InlineInFront(text, p);
        }
      }
      if i :| 0 <= i < p && text[i] == Text(Inline) && forall j :: i < j < p ==> text[j] != Text(Newline) {
        assert i < p - 1 ==> InlineInFront(text, p - 1);
      }
    }
  }

  /** Which calls the text shows is what the forest wraps. */
  lemma {:induction false} CallIs(text: Tokens, p: nat, w: Item, r: Forest, tail: Tokens, e: nat)
    requires Has(text, p, Text(w)) && Rests(text, p + 1, Print(r, tail)) && Closes(tail)
    ensures Opens(r) ==> |Print(Behind(r), tail)| <= |text|
    ensures WrapsUpTo(text, p, e) <==>
      w.Callee? && Opens(r) && e == Where(text, Print(Behind(r), tail)) &&
      !Skipped(MarkBefore(text, p), InlineBefore(text, p), Behind(r))
  {
    GroupIs(text, p, r, tail, e);
    InlineIs(text, p);
    if Opens(r) {
      ArgsClose(text, p + 1, r, tail);
      BraceIs(text, Where(text, Print(Behind(r), tail)), Behind(r), tail);
    }
  }

  // ----- Wrapping is insertion

  /** The wrapped text of a stretch is the stretch with its insertions. */
  ghost predicate IsInserted(text: Tokens, calls: Calls, p: nat, hi: nat, wrapped: Tokens, out: Tokens)
    requires p <= hi <= |text|
  {
    Inside(calls, p, hi) && wrapped == Inserted(text, calls, p, hi, p) + out
  }

  lemma {:induction false} InsideBoth(calls: Calls, lo: nat, mid: nat, hi: nat)
    requires lo <= mid <= hi && Inside(calls, lo, mid) && Inside(calls, mid, hi)
    ensures Inside(calls, lo, hi)
  {
  }

  /** A token that starts no call, in front of a stretch. */
  lemma {:induction false} TokenInFront(text: Tokens, calls: Calls, p: nat, hi: nat, wrapped: Tokens, out: Tokens)
    requires p < hi <= |text| && p !in calls && IsInserted(text, calls, p + 1, hi, wrapped, out)
    ensures IsInserted(text, calls, p, hi, [text[p]] + wrapped, out)
  {
    StartsWith(text, calls, p, hi);
    assert [text[p]] + (Inserted(text, calls, p + 1, hi, p + 1) + out) ==
           [text[p]] + Inserted(text, calls, p + 1, hi, p + 1) + out;
  }

  /** One stretch behind another. */
  lemma {:induction false} StretchBehind(text: Tokens, calls: Calls, p: nat, mid: nat, hi: nat, wrapped: Tokens,
                                         rest: Tokens, out: Tokens)
    requires p <= mid <= hi <= |text|
    requires IsInserted(text, calls, p, mid, wrapped, rest) && IsInserted(text, calls, mid, hi, rest, out)
    ensures IsInserted(text, calls, p, hi, wrapped, out)
  {
    InsideBoth(calls, p, mid, hi);
    Joins(text, calls, p, mid, hi, p);
    assert Inserted(text, calls, p, mid, p) + (Inserted(text, calls, mid, hi, mid) + out) ==
           Inserted(text, calls, p, mid, p) + Inserted(text, calls, mid, hi, mid) + out;
  }

  /** A call in front of the stretch that it ends with. */
  lemma {:induction false} CallInFront(text: Tokens, calls: Calls, p: nat, e: nat, wrapped: Tokens, out: Tokens)
    requires p < e <= |text| && p in calls && calls[p] == e
    requires IsInserted(text, calls, p + 1, e, wrapped, [RPar] + out)
    ensures IsInserted(text, calls, p, e, [LPar, Text(Star), text[p]] + wrapped, out)
  {
    StartsWith(text, calls, p, e);
    var inside := Inserted(text, calls, p + 1, e, p + 1);
    assert [LPar, Text(Star), text[p]] + (inside + ([RPar] + out)) ==
           [LPar, Text(Star), text[p]] + inside + [RPar] + out;
  }

  lemma {:induction false} EmptyStretch(text: Tokens, calls: Calls, p: nat, out: Tokens)
    requires p <= |text| && Inside(calls, p, p)
    ensures IsInserted(text, calls, p, p, out, out)
  {
    assert Ending(calls, p, p, p) == {};
    assert [] + out == out;
  }

  lemma {:induction false} OnlyNames(text: Tokens, calls: Calls, p: nat)
    requires CallsOf(text, calls) && p in calls
    ensures p < |text| && text[p].Text? && text[p].word.Callee? && p < calls[p] <= |text|
  {
    assert WrapsUpTo(text, p, calls[p]);
  }

  lemma {:induction false} CallsEndBehind(text: Tokens, calls: Calls, p: nat)
    requires CallsOf(text, calls)
    ensures Inside(calls, p, p)
  {
    forall x | x in calls
      ensures x < calls[x]
    {
      OnlyNames(text, calls, x);
    }
  }

  /** A printed parenthesis, given its contents and what follows. */
  lemma {:induction false} ParenStretch(text: Tokens, calls: Calls, p: nat, mid: nat, hi: nat, inner: Tokens,
                                        rest: Tokens, out: Tokens)
    requires CallsOf(text, calls) && p < mid < hi <= |text| && text[p] == LPar && text[mid] == RPar
    requires IsInserted(text, calls, p + 1, mid, inner, [RPar] + rest)
    requires IsInserted(text, calls, mid + 1, hi, rest, out)
    ensures IsInserted(text, calls, p, hi, [LPar] + inner, out)
  {
    if p in calls {
      OnlyNames(text, calls, p);
    }
    if mid in calls {
      OnlyNames(text, calls, mid);
    }
    TokenInFront(text, calls, mid, hi, rest, out);
    StretchBehind(text, calls, p + 1, mid, hi, inner, [RPar] + rest, out);
    TokenInFront(text, calls, p, hi, inner, out);
  }

  lemma {:induction false} PrintArgs(f: Forest, tail: Tokens)
    requires Opens(f)
    ensures Print(Args(f), Print(Behind(f), tail)) == Print(f, tail)
  {
    if f.Plain? {
      PrintArgs(f.rest, tail);
    }
  }

  /** MAIN RESULT on forests: wrapping a printed forest inserts at the calls that the text shows. */
  lemma {:induction false} WrapInserts(text: Tokens, calls: Calls, p: nat, f: Forest, m: Mark, inl: bool, tail: Tokens,
                                       out: Tokens)
    requires CallsOf(text, calls) && Rests(text, p, Print(f, tail)) && Closes(tail)
    requires m == MarkBefore(text, p) && inl == InlineBefore(text, p)
    ensures p <= Where(text, tail) && IsInserted(text, calls, p, Where(text, tail), Print(Wrap(f, m, inl), out), out)
    decreases Size(f), 1
  {
    After(text, p, f, tail);
    match f
    case End =>
      CallsEndBehind(text, calls, p);
      EmptyStretch(text, calls, p, out);
    case Plain(w, r) =>
      First(text, p, Text(w), Print(r, tail));
      WrapInsertsPlain(text, calls, p, w, r, m, inl, tail, out);
    case Paren(g, r) =>
      var mid, i := Where(text, [RPar] + Print(r, tail)), InlineBehind(inl, g);
      ParenAt(text, p, g, r, tail);
      InlinePass(text, p + 1, g, [RPar] + Print(r, tail));
      WrapInserts(text, calls, mid + 1, r, Elsewhere, i, tail, out);
      var behind := Print(Wrap(r, Elsewhere, i), out);
      WrapInsertsParen(text, calls, p, g, inl, Print(r, tail), Where(text, tail), behind, out);
  }

  /** A parenthesis, given what follows. */
  lemma {:induction false} WrapInsertsParen(text: Tokens, calls: Calls, p: nat, g: Forest, inl: bool, rest: Tokens,
                                            hi: nat, behind: Tokens, out: Tokens)
    requires CallsOf(text, calls) && Has(text, p, LPar) && Rests(text, p + 1, Print(g, [RPar] + rest))
    requires inl == InlineBefore(text, p) && Where(text, rest) <= hi <= |text|
    requires IsInserted(text, calls, Where(text, rest), hi, behind, out)
    ensures IsInserted(text, calls, p, hi, [LPar] + Print(Wrap(g, Opened, inl), [RPar] + behind), out)
    decreases Size(g), 2
  {
    var mid := Where(text, [RPar] + rest);
    After(text, p + 1, g, [RPar] + rest);
    First(text, mid, RPar, rest);
    WrapInserts(text, calls, p + 1, g, Opened, inl, [RPar] + rest, [RPar] + behind);
    ParenStretch(text, calls, p, mid, hi, Print(Wrap(g, Opened, inl), [RPar] + behind), behind, out);
  }

  /** Which names are calls. */
  lemma {:induction false} CallIn(text: Tokens, calls: Calls, p: nat, w: Item, r: Forest, tail: Tokens)
    requires CallsOf(text, calls) && Has(text, p, Text(w)) && Rests(text, p + 1, Print(r, tail)) && Closes(tail)
    ensures Opens(r) ==> |Print(Behind(r), tail)| <= |text|
    ensures p in calls <==>
      w.Callee? && Opens(r) && !Skipped(MarkBefore(text, p), InlineBefore(text, p), Behind(r))
    ensures p in calls ==> calls[p] == Where(text, Print(Behind(r), tail))
  {
    if Opens(r) {
      ArgsClose(text, p + 1, r, tail);
      CallIs(text, p, w, r, tail, Where(text, Print(Behind(r), tail)));
    }
    if p in calls {
      CallIs(text, p, w, r, tail, calls[p]);
    }
  }

  lemma {:induction false} WrapInsertsPlain(text: Tokens, calls: Calls, p: nat, w: Item, r: Forest, m: Mark, inl: bool,
                                            tail: Tokens, out: Tokens)
    requires CallsOf(text, calls) && Has(text, p, Text(w)) && Rests(text, p + 1, Print(r, tail)) && Closes(tail)
    requires m == MarkBefore(text, p) && inl == InlineBefore(text, p)
    ensures p <= Where(text, tail)
    ensures IsInserted(text, calls, p, Where(text, tail), Print(Wrap(Plain(w, r), m, inl), out), out)
    decreases 1 + Size(r), 0
  {
    var n, i := Next(m, w), InlineNext(inl, w);
    After(text, p + 1, r, tail);
    CallIn(text, calls, p, w, r, tail);
    WrapIsOneWrap(w, r, m, inl);
    if Opens(r) {
      BehindKeepsBraces(r, n, i);
    }
    if p in calls {
      WrapInsertsCall(text, calls, p, w, r, n, i, tail, out);
    } else {
      WrapInserts(text, calls, p + 1, r, n, i, tail, out);
      TokenInFront(text, calls, p, Where(text, tail), Print(Wrap(r, n, i), out), out);
    }
  }

  /** A call, given its arguments and what follows. */
  lemma {:induction false} CallStretch(text: Tokens, calls: Calls, p: nat, e: nat, hi: nat, w: Item, done: Forest,
                                       out: Tokens)
    requires Opens(done) && p < e <= hi <= |text| && text[p] == Text(w) && p in calls && calls[p] == e
    requires IsInserted(text, calls, p + 1, e, Print(Args(done), [RPar] + Print(Behind(done), out)),
                        [RPar] + Print(Behind(done), out))
    requires IsInserted(text, calls, e, hi, Print(Behind(done), out), out)
    ensures IsInserted(text, calls, p, hi, Print(OneWrap(w, done, true), out), out)
  {
    var behind := Print(Behind(done), out);
    var args := Print(Args(done), [RPar] + behind);
    CallInFront(text, calls, p, e, args, behind);
    PrintWrapped(w, done, out);
    assert [LPar] + ([Text(Star)] + ([Text(w)] + args)) == [LPar, Text(Star), Text(w)] + args;
    StretchBehind(text, calls, p, e, hi, Print(OneWrap(w, done, true), out), behind, out);
  }

  lemma {:induction false} WrapInsertsCall(text: Tokens, calls: Calls, p: nat, w: Item, r: Forest, n: Mark, i: bool,
                                           tail: Tokens, out: Tokens)
    requires CallsOf(text, calls) && Has(text, p, Text(w)) && Rests(text, p + 1, Print(r, tail)) && Closes(tail)
    requires n == MarkBefore(text, p + 1) && i == InlineBefore(text, p + 1) && Opens(r)
    requires |Print(Behind(r), tail)| <= |text| && p in calls && calls[p] == Where(text, Print(Behind(r), tail))
    ensures p <= Where(text, tail)
    ensures IsInserted(text, calls, p, Where(text, tail), Print(OneWrap(w, Wrap(r, n, i), true), out), out)
    decreases Size(r), 3
  {
    var done := Wrap(r, n, i);
    WrapArgs(r, n, i);
    BehindInserts(text, calls, p + 1, r, i, tail, out);
    ArgsInserts(text, calls, p + 1, r, n, i, tail, [RPar] + Print(Behind(done), out));
    OnlyNames(text, calls, p);
    CallStretch(text, calls, p, calls[p], Where(text, tail), w, done, out);
  }

  /** What follows the arguments. */
  lemma {:induction false} BehindInserts(text: Tokens, calls: Calls, p: nat, r: Forest, i: bool, tail: Tokens,
                                         out: Tokens)
    requires CallsOf(text, calls) && Rests(text, p, Print(r, tail)) && Closes(tail) && Opens(r)
    requires i == InlineBefore(text, p) && |Print(Behind(r), tail)| <= |text|
    ensures Where(text, Print(Behind(r), tail)) <= Where(text, tail)
    ensures IsInserted(text, calls, Where(text, Print(Behind(r), tail)), Where(text, tail),
                       Print(Wrap(Behind(r), Elsewhere, InlineBehind(i, Args(r))), out), out)
    decreases Size(r), 2
  {
    var e := Where(text, Print(Behind(r), tail));
    ArgsClose(text, p, r, tail);
    PartsAreSmaller(r);
    PrintArgs(r, tail);
    InlinePass(text, p, Args(r), Print(Behind(r), tail));
    ClosedBefore(text, p, r, tail, e);
    WrapInserts(text, calls, e, Behind(r), Elsewhere, InlineBefore(text, e), tail, out);
  }

  /** In front of what follows the arguments their parenthesis closes. */
  lemma {:induction false} ClosedBefore(text: Tokens, p: nat, r: Forest, tail: Tokens, e: nat)
    requires Rests(text, p, Print(r, tail)) && Opens(r) && |Print(Behind(r), tail)| <= |text|
    requires e == Where(text, Print(Behind(r), tail))
    ensures p < e && MarkBefore(text, e) == Elsewhere
  {
    WithinIsBalanced(text, p, r, tail, p + Blanks(r), e);
  }

  /** The arguments alone. */
  lemma {:induction false} ArgsInserts(text: Tokens, calls: Calls, p: nat, r: Forest, m: Mark, inl: bool, tail: Tokens,
                                       out: Tokens)
    requires CallsOf(text, calls) && Rests(text, p, Print(r, tail)) && Opens(r)
    requires m == MarkBefore(text, p) && inl == InlineBefore(text, p)
    requires |Print(Behind(r), tail)| <= |text|
    ensures p <= Where(text, Print(Behind(r), tail))
    ensures IsInserted(text, calls, p, Where(text, Print(Behind(r), tail)), Print(Args(Wrap(r, m, inl)), out), out)
    decreases Size(r), 2
  {
    var e := Where(text, Print(Behind(r), tail));
    match r
    case Plain(w, s) =>
      First(text, p, Text(w), Print(s, tail));
      ArgsInserts(text, calls, p + 1, s, Next(m, w), InlineNext(inl, w), tail, out);
      if p in calls {
        OnlyNames(text, calls, p);
      }
      TokenInFront(text, calls, p, e, Print(Args(Wrap(s, Next(m, w), InlineNext(inl, w))), out), out);
    case Paren(g, s) =>
      var rest := [RPar] + Print(s, tail);
      ParenAt(text, p, g, s, tail);
      WrapInserts(text, calls, p + 1, g, Opened, inl, rest, [RPar] + out);
      CallsEndBehind(text, calls, e);
      EmptyStretch(text, calls, e, out);
      ParenStretch(text, calls, p, Where(text, rest), e, Print(Wrap(g, Opened, inl), [RPar] + out), out, out);
  }

  ghost predicate Wraps(text: Tokens, p: nat) {
    exists e: nat :: WrapsUpTo(text, p, e)
  }

  ghost function EndOf(text: Tokens, p: nat): (e: nat)
    requires Wraps(text, p)
    ensures WrapsUpTo(text, p, e)
  {
    var e: nat :| WrapsUpTo(text, p, e);
    e
  }

  /** The calls of a text, gathered. */
  ghost function Gathered(text: Tokens): Calls {
    map p: nat | p < |text| && Wraps(text, p) :: EndOf(text, p)
  }

  lemma {:induction false} GatheredIsCalls(text: Tokens)
    ensures CallsOf(text, Gathered(text))
  {
    forall p: nat, e: nat
      ensures WrapsUpTo(text, p, e) <==> p in Gathered(text) && Gathered(text)[p] == e
    {
      if WrapsUpTo(text, p, e) {
        assert Wraps(text, p);
        OneEnd(text, p, e, EndOf(text, p));
      }
    }
  }

  lemma {:induction false} OneEnd(text: Tokens, p: nat, e: nat, e': nat)
    requires WrapsUpTo(text, p, e) && WrapsUpTo(text, p, e')
    ensures e == e'
  {
    var q :| GroupBehind(text, p, q, e);
    var q' :| GroupBehind(text, p, q', e');
    OneGroup(text, p, q, e, q', e');
  }

  /** MAIN RESULT.  On a text with balanced parentheses, wrapping writes `(*` in front of every name that heads a
      call and `)` behind the group of each, except for calls that are dereferenced already or head an inline
      definition, and changes nothing else. */
  lemma {:induction false} WrappingInserts(text: Tokens, calls: Calls)
    requires Balanced(text, 0) && CallsOf(text, calls)
    ensures WrapRest(text, 0) == Some(Inserted(text, calls, 0, |text|, 0))
  {
    var f, tail := Parsed(text, 0);
    assert text[0..] == text;
    WrapPass(text, 0, f, Elsewhere, false, [], []);
    WrapInserts(text, calls, 0, f, Elsewhere, false, [], []);
    assert Inserted(text, calls, 0, |text|, 0) + [] == Inserted(text, calls, 0, |text|, 0);
  }
}

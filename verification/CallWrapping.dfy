/** dereference_pointer_calls and undereference_proxy_calls: rewriting the calls of one name in a
    text, the last ones first, by counting parentheses. */
module CallWrapping {
  import opened Common
  import opened CallForests

  datatype Token = LPar | RPar | Text(word: Item)

  type Tokens = seq<Token>

  /** The text of a forest, in front of other text. */
  function Print(f: Forest, tail: Tokens): (r: Tokens)
    ensures |tail| <= |r|
  {
    match f
    case End => tail
    case Plain(w, r) => [Text(w)] + Print(r, tail)
    case Paren(g, r) => [LPar] + Print(g, [RPar] + Print(r, tail))
  }

  // ----- Scanning

  predicate Has(text: Tokens, p: nat, token: Token) {
    p < |text| && text[p] == token
  }

  function SkipBlanks(text: Tokens, p: nat): (r: nat)
    ensures p <= r && (p <= |text| ==> r <= |text|)
    decreases if p < |text| then |text| - p else 0
  {
    if p < |text| && text[p].Text? && IsBlank(text[p].word) then SkipBlanks(text, p + 1) else p
  }

  /** Behind the parenthesis that closes a depth open at the cursor. */
  function CloseFrom(text: Tokens, cursor: nat, depth: nat): (r: Option<nat>)
    ensures r.Some? ==> cursor <= r.value && (cursor <= |text| ==> r.value <= |text|)
    ensures r.Some? && depth > 0 ==> cursor < r.value <= |text|
    decreases if cursor < |text| then |text| - cursor else 0
  {
    if depth == 0 then Some(cursor)
    else if cursor >= |text| then None
    else
      CloseFrom(text, cursor + 1,
                if text[cursor] == LPar then depth + 1 else if text[cursor] == RPar then depth - 1 else depth)
  }

  /** Whether `inline` stands in front of a position on its line. */
  predicate InlineBefore(text: Tokens, p: nat)
    requires p <= |text|
  {
    p > 0 && text[p - 1] != Text(Newline) && (text[p - 1] == Text(Inline) || InlineBefore(text, p - 1))
  }

  /** What stands directly in front of a position. */
  function MarkBefore(text: Tokens, p: nat): Mark
    requires p <= |text|
  {
    if p >= 2 && text[p - 2] == LPar && text[p - 1] == Text(Star) then OpenedStar
    else if p >= 1 && text[p - 1] == LPar then Opened
    else Elsewhere
  }

  predicate CallAt(text: Tokens, p: nat) {
    p < |text| && text[p].Text? && text[p].word.Callee? && Has(text, SkipBlanks(text, p + 1), LPar)
  }

  // ----- Wrapping a text

  /** One step of wrapping: a call whose name is followed by a text in which the later calls are
      wrapped already, and whose parenthesis opens at an offset of that text. */
  function WrapStep(name: Token, behind: Tokens, opening: nat, m: Mark, inl: bool): Option<Tokens> {
    if m == OpenedStar then Some([name] + behind)
    else
      match CloseFrom(behind, opening + 1, 1)
      case None => None
      case Some(end) =>
        if inl && Has(behind, SkipBlanks(behind, end), Text(Brace)) then Some([name] + behind)
        else Some([LPar, Text(Star), name] + behind[..end] + [RPar] + behind[end..])
  }

  /** What becomes of the text from a position on. */
  function WrapRest(text: Tokens, p: nat): Option<Tokens>
    decreases if p < |text| then |text| - p else 0
  {
    if p >= |text| then Some([])
    else
      match WrapRest(text, p + 1)
      case None => None
      case Some(behind) =>
        if CallAt(text, p)
        then WrapStep(text[p], behind, SkipBlanks(text, p + 1) - (p + 1), MarkBefore(text, p), InlineBefore(text, p))
        else Some([text[p]] + behind)
  }

  // ----- Unwrapping a text

  predicate WrappedAt(text: Tokens, p: nat) {
    Has(text, p, LPar) && Has(text, p + 1, Text(Star)) && CallAt(text, p + 2)
  }

  /** One step of unwrapping: a match whose last parenthesis is followed by a text in which the later
      matches are unwrapped already; of the match only the call is kept. */
  function UnwrapStep(call: Tokens, behind: Tokens): Option<Tokens> {
    match CloseFrom(behind, 0, 1)
    case None => None
    case Some(end) => if Has(behind, end, RPar) then Some(call + behind[..end] + behind[end + 1..]) else None
  }

  function Push(token: Token, behind: Option<Tokens>): Option<Tokens> {
    match behind case None => None case Some(b) => Some([token] + b)
  }

  /** What becomes of the text from a position on; the search goes on behind each match. */
  function UnwrapRest(text: Tokens, p: nat): Option<Tokens>
    decreases if p < |text| then |text| - p else 0
  {
    if p >= |text| then Some([])
    else if WrappedAt(text, p) then
      var opening := SkipBlanks(text, p + 3);
      match UnwrapRest(text, opening + 1)
      case None => None
      case Some(behind) => UnwrapStep(text[p + 2..opening + 1], behind)
    else Push(text[p], UnwrapRest(text, p + 1))
  }

  // ----- Scanning a printed forest

  /** From a position on the text is this. */
  predicate Rests(text: Tokens, p: nat, rest: Tokens) {
    p <= |text| && text[p..] == rest
  }

  /** What closes a printed forest: nothing, or a parenthesis. */
  predicate Closes(tail: Tokens) {
    tail == [] || tail[0] == RPar
  }

  function Where(text: Tokens, rest: Tokens): (p: nat)
    requires |rest| <= |text|
    ensures p + |rest| == |text|
  {
    |text| - |rest|
  }

  lemma {:induction false} First(text: Tokens, p: nat, token: Token, rest: Tokens)
    requires Rests(text, p, [token] + rest)
    ensures Has(text, p, token) && Rests(text, p + 1, rest)
  {
    assert text[p..][0] == token && text[p..][1..] == rest;
    assert text[p..][1..] == text[p + 1..];
  }

  /** The text behind a printed forest. */
  lemma {:induction false} After(text: Tokens, p: nat, f: Forest, tail: Tokens)
    requires Rests(text, p, Print(f, tail))
    ensures p <= Where(text, tail) && Rests(text, Where(text, tail), tail)
    decreases f
  {
    match f
    case End =>
    case Plain(w, r) =>
      First(text, p, Text(w), Print(r, tail));
      After(text, p + 1, r, tail);
    case Paren(g, r) =>
      ParenAt(text, p, g, r, tail);
      After(text, Where(text, Print(r, tail)), r, tail);
  }

  /** A printed parenthesis: its contents, where it closes, and what follows. */
  lemma {:induction false} ParenAt(text: Tokens, p: nat, g: Forest, r: Forest, tail: Tokens)
    requires Rests(text, p, Print(Paren(g, r), tail))
    ensures Has(text, p, LPar) && Rests(text, p + 1, Print(g, [RPar] + Print(r, tail)))
    ensures var mid := Where(text, [RPar] + Print(r, tail));
      && p < mid && Has(text, mid, RPar) && Rests(text, mid, [RPar] + Print(r, tail))
      && Rests(text, mid + 1, Print(r, tail)) && mid + 1 == Where(text, Print(r, tail))
    decreases Paren(g, r), 0
  {
    var rest := [RPar] + Print(r, tail);
    First(text, p, LPar, Print(g, rest));
    After(text, p + 1, g, rest);
    First(text, Where(text, rest), RPar, Print(r, tail));
  }

  function Blanks(f: Forest): nat {
    if f.Plain? && IsBlank(f.word) then 1 + Blanks(f.rest) else 0
  }

  lemma {:induction false} SkipIs(text: Tokens, p: nat, f: Forest, tail: Tokens)
    requires Rests(text, p, Print(f, tail)) && Closes(tail)
    ensures SkipBlanks(text, p) == p + Blanks(f)
    ensures Has(text, p + Blanks(f), LPar) <==> Opens(f)
    ensures Has(text, p + Blanks(f), Text(Brace)) <==> Braces(f)
    decreases f
  {
    match f
    case End =>
      assert tail != [] ==> text[p] == text[p..][0];
    case Plain(w, r) =>
      First(text, p, Text(w), Print(r, tail));
      SkipIs(text, p + 1, r, tail);
    case Paren(g, r) =>
      First(text, p, LPar, Print(g, [RPar] + Print(r, tail)));
  }

  /** A printed forest leaves the depth as it was. */
  lemma {:induction false} PassForest(text: Tokens, p: nat, f: Forest, tail: Tokens, depth: nat)
    requires Rests(text, p, Print(f, tail)) && depth > 0
    ensures CloseFrom(text, p, depth) == CloseFrom(text, Where(text, tail), depth)
    decreases f
  {
    match f
    case End =>
    case Plain(w, r) =>
      First(text, p, Text(w), Print(r, tail));
      PassForest(text, p + 1, r, tail, depth);
    case Paren(g, r) =>
      ParenAt(text, p, g, r, tail);
      PassForest(text, p + 1, g, [RPar] + Print(r, tail), depth + 1);
      PassForest(text, Where(text, Print(r, tail)), r, tail, depth);
  }

  /** The arguments end where their parenthesis closes. */
  lemma {:induction false} ArgsClose(text: Tokens, p: nat, f: Forest, tail: Tokens)
    requires Rests(text, p, Print(f, tail)) && Opens(f)
    ensures |Print(Behind(f), tail)| <= |text|
    ensures CloseFrom(text, p + Blanks(f) + 1, 1) == Some(Where(text, Print(Behind(f), tail)))
    ensures Rests(text, Where(text, Print(Behind(f), tail)), Print(Behind(f), tail))
    decreases f
  {
    match f
    case Plain(w, r) =>
      First(text, p, Text(w), Print(r, tail));
      ArgsClose(text, p + 1, r, tail);
    case Paren(g, r) => ParenCloses(text, p, g, r, tail);
  }

  lemma {:induction false} ParenCloses(text: Tokens, p: nat, g: Forest, r: Forest, tail: Tokens)
    requires Rests(text, p, Print(Paren(g, r), tail))
    ensures |Print(r, tail)| <= |text|
    ensures var end := Where(text, Print(r, tail));
      CloseFrom(text, p + 1, 1) == Some(end) && Rests(text, end, Print(r, tail))
  {
    ParenAt(text, p, g, r, tail);
    PassForest(text, p + 1, g, [RPar] + Print(r, tail), 1);
  }

  lemma {:induction false} InlinePass(text: Tokens, p: nat, f: Forest, tail: Tokens)
    requires Rests(text, p, Print(f, tail))
    ensures InlineBefore(text, Where(text, tail)) == InlineBehind(InlineBefore(text, p), f)
    decreases f
  {
    match f
    case End =>
    case Plain(w, r) =>
      First(text, p, Text(w), Print(r, tail));
      InlinePass(text, p + 1, r, tail);
    case Paren(g, r) =>
      ParenAt(text, p, g, r, tail);
      InlinePass(text, p + 1, g, [RPar] + Print(r, tail));
      InlinePass(text, Where(text, Print(r, tail)), r, tail);
  }

  // ----- Wrapping a printed forest

  lemma {:induction false} WrapKeepsBlanks(f: Forest, m: Mark, inl: bool)
    requires Opens(f)
    ensures Opens(Wrap(f, m, inl)) && Blanks(Wrap(f, m, inl)) == Blanks(f)
  {
    if f.Plain? {
      WrapKeepsBlanks(f.rest, Next(m, f.word), InlineNext(inl, f.word));
    }
  }

  /** All but the last tokens of a text, with something else behind. */
  function Cut(s: Tokens, n: nat, other: Tokens): Tokens
    requires n <= |s|
  {
    s[..|s| - n] + other
  }

  lemma {:induction false} CutStep(token: Token, s: Tokens, n: nat, other: Tokens)
    requires n <= |s|
    ensures Cut([token] + s, n, other) == [token] + Cut(s, n, other)
  {
    assert ([token] + s)[..|s| + 1 - n] == [token] + s[..|s| - n];
  }

  /** A printed forest with another text behind. */
  lemma {:induction false} Retail(f: Forest, tail: Tokens, other: Tokens)
    ensures Cut(Print(f, tail), |tail|, other) == Print(f, other)
    decreases f
  {
    match f
    case End =>
    case Plain(w, r) =>
      Retail(r, tail, other);
      CutStep(Text(w), Print(r, tail), |tail|, other);
    case Paren(g, r) =>
      var rest := [RPar] + Print(r, tail);
      Retail(r, tail, other);
      CutStep(RPar, Print(r, tail), |tail|, other);
      Retail(g, rest, [RPar] + Print(r, other));
      EndsWith(g, rest);
      CutInside(Print(g, rest), rest, |tail|, other);
      CutStep(LPar, Print(g, rest), |tail|, other);
  }

  lemma {:induction false} EndsWith(f: Forest, tail: Tokens)
    ensures var s := Print(f, tail); s[|s| - |tail|..] == tail
  {
    After(Print(f, tail), 0, f, tail);
  }

  /** Cutting inside what a text ends with. */
  lemma {:induction false} CutInside(s: Tokens, rest: Tokens, n: nat, other: Tokens)
    requires n <= |rest| <= |s| && s[|s| - |rest|..] == rest
    ensures Cut(s, n, other) == Cut(s, |rest|, Cut(rest, n, other))
  {
    assert s[..|s| - n] == s[..|s| - |rest|] + rest[..|rest| - n];
  }

  /** A printed forest up to where its arguments end, with something else behind. */
  lemma {:induction false} CutArgs(f: Forest, tail: Tokens, other: Tokens)
    requires Opens(f)
    ensures |Print(Behind(f), tail)| <= |Print(f, tail)|
    ensures Cut(Print(f, tail), |Print(Behind(f), tail)|, other) == Print(Args(f), other)
    decreases f
  {
    match f
    case Plain(w, r) =>
      CutArgs(r, tail, other);
      CutStep(Text(w), Print(r, tail), |Print(Behind(r), tail)|, other);
    case Paren(g, r) =>
      var behind := Print(r, tail);
      var rest := [RPar] + behind;
      EndsWith(g, rest);
      Retail(g, rest, [RPar] + other);
      CutInside(Print(g, rest), rest, |behind|, other);
      CutStep(LPar, Print(g, rest), |behind|, other);
  }

  /** A word in front of what is wrapped already: the call it heads, or the word as it is. */
  function OneWrap(w: Item, done: Forest, wraps: bool): Forest
    requires wraps ==> Opens(done)
  {
    if wraps then Paren(Plain(Star, Plain(w, Args(done))), Behind(done)) else Plain(w, done)
  }

  lemma {:induction false} WrapIsOneWrap(w: Item, r: Forest, m: Mark, inl: bool)
    ensures var done := Wrap(r, Next(m, w), InlineNext(inl, w));
      Wrap(Plain(w, r), m, inl) ==
        OneWrap(w, done, w.Callee? && Opens(r) && !Skipped(m, inl, Behind(done)))
  {
  }

  lemma {:induction false} WrapStepAt(name: Token, behind: Tokens, opening: nat, m: Mark, inl: bool, end: nat,
                                      brace: bool)
    requires CloseFrom(behind, opening + 1, 1) == Some(end) && Has(behind, SkipBlanks(behind, end), Text(Brace)) ==
      brace
    ensures end <= |behind|
    ensures WrapStep(name, behind, opening, m, inl) == Some(
      if m == OpenedStar || (inl && brace) then [name] + behind
      else [LPar, Text(Star), name] + behind[..end] + [RPar] + behind[end..])
  {
  }

  lemma {:induction false} Spliced(name: Token, args: Tokens, behind: Tokens)
    ensures [LPar, Text(Star), name] + args + [RPar] + behind ==
      [LPar] + ([Text(Star)] + ([name] + (args + ([RPar] + behind))))
  {
  }

  /** Behind the name of a printed call: where its arguments end, and whether a brace follows. */
  lemma {:induction false} ScanArgs(s: Tokens, f: Forest, tail: Tokens)
    requires s == Print(f, tail) && Opens(f) && Closes(tail)
    ensures |Print(Behind(f), tail)| <= |s|
    ensures var end := Where(s, Print(Behind(f), tail));
      CloseFrom(s, Blanks(f) + 1, 1) == Some(end) && Has(s, SkipBlanks(s, end), Text(Brace)) == Braces(Behind(f))
  {
    ArgsClose(s, 0, f, tail);
    SkipIs(s, Where(s, Print(Behind(f), tail)), Behind(f), tail);
  }

  /** A call with a parenthesis around it. */
  lemma {:induction false} WrapCut(w: Item, f: Forest, tail: Tokens)
    requires Opens(f)
    ensures var s, behind := Print(f, tail), Print(Behind(f), tail);
      && |behind| <= |s|
      && [LPar, Text(Star), Text(w)] + s[..|s| - |behind|] + [RPar] + s[|s| - |behind|..] ==
         Print(OneWrap(w, f, true), tail)
  {
    var s, behind := Print(f, tail), Print(Behind(f), tail);
    ArgsClose(s, 0, f, tail);
    CutArgs(f, tail, [RPar] + behind);
    Spliced(Text(w), s[..|s| - |behind|], behind);
    PrintWrapped(w, f, tail);
  }

  /** A step at a printed call. */
  lemma {:induction false} WrapStepIs(w: Item, f: Forest, m: Mark, inl: bool, tail: Tokens)
    requires Opens(f) && Closes(tail)
    ensures WrapStep(Text(w), Print(f, tail), Blanks(f), m, inl) ==
      Some(Print(OneWrap(w, f, !Skipped(m, inl, Behind(f))), tail))
  {
    var s := Print(f, tail);
    ScanArgs(s, f, tail);
    WrapStepAt(Text(w), s, Blanks(f), m, inl, Where(s, Print(Behind(f), tail)), Braces(Behind(f)));
    if !Skipped(m, inl, Behind(f)) {
      WrapCut(w, f, tail);
    }
  }

  lemma {:induction false} PrintWrapped(w: Item, f: Forest, tail: Tokens)
    requires Opens(f)
    ensures Print(OneWrap(w, f, true), tail) ==
      [LPar] + ([Text(Star)] + ([Text(w)] + Print(Args(f), [RPar] + Print(Behind(f), tail))))
  {
    var call, rest := Plain(w, Args(f)), [RPar] + Print(Behind(f), tail);
    assert Print(call, rest) == [Text(w)] + Print(Args(f), rest);
    assert Print(Plain(Star, call), rest) == [Text(Star)] + Print(call, rest);
  }

  lemma {:induction false} WrapSkips(text: Tokens, p: nat)
    requires p < |text| && !CallAt(text, p)
    ensures WrapRest(text, p) == Push(text[p], WrapRest(text, p + 1))
  {
  }

  lemma {:induction false} WrapCalls(text: Tokens, p: nat, blanks: nat, behind: Tokens)
    requires CallAt(text, p) && SkipBlanks(text, p + 1) == p + 1 + blanks && WrapRest(text, p + 1) == Some(behind)
    ensures WrapRest(text, p) == WrapStep(text[p], behind, blanks, MarkBefore(text, p), InlineBefore(text, p))
  {
  }

  /** Wrapping a text from a printed forest on, given what becomes of the rest. */
  lemma {:induction false} WrapPass(text: Tokens, p: nat, f: Forest, m: Mark, inl: bool, tail: Tokens, out: Tokens)
    requires Rests(text, p, Print(f, tail)) && Closes(tail) && Closes(out)
    requires m == MarkBefore(text, p) && inl == InlineBefore(text, p)
    requires WrapRest(text, Where(text, tail)) == Some(out)
    ensures WrapRest(text, p) == Some(Print(Wrap(f, m, inl), out))
    decreases f, 1
  {
    match f
    case End =>
    case Plain(w, r) =>
      First(text, p, Text(w), Print(r, tail));
      WrapPassPlain(text, p, w, r, m, inl, tail, out);
    case Paren(g, r) =>
      var rest := [RPar] + Print(r, tail);
      ParenAt(text, p, g, r, tail);
      InlinePass(text, p + 1, g, rest);
      WrapClosed(text, Where(text, rest), r, InlineBehind(inl, g), tail, out);
      WrapOpened(text, p, g, inl, rest, [RPar] + Print(Wrap(r, Elsewhere, InlineBehind(inl, g)), out));
  }

  /** From where a parenthesis closes. */
  lemma {:induction false} WrapClosed(text: Tokens, mid: nat, r: Forest, inl: bool, tail: Tokens, out: Tokens)
    requires Has(text, mid, RPar) && Rests(text, mid + 1, Print(r, tail)) && Closes(tail) && Closes(out)
    requires inl == InlineBefore(text, mid) && WrapRest(text, Where(text, tail)) == Some(out)
    ensures WrapRest(text, mid) == Some([RPar] + Print(Wrap(r, Elsewhere, inl), out))
    decreases r, 2
  {
    WrapPass(text, mid + 1, r, Elsewhere, inl, tail, out);
    WrapSkips(text, mid);
  }

  /** From where a parenthesis opens. */
  lemma {:induction false} WrapOpened(text: Tokens, p: nat, g: Forest, inl: bool, rest: Tokens, out: Tokens)
    requires Has(text, p, LPar) && Rests(text, p + 1, Print(g, rest)) && Closes(rest) && Closes(out)
    requires inl == InlineBefore(text, p) && WrapRest(text, Where(text, rest)) == Some(out)
    ensures WrapRest(text, p) == Some([LPar] + Print(Wrap(g, Opened, inl), out))
    decreases g, 2
  {
    WrapPass(text, p + 1, g, Opened, inl, rest, out);
    WrapSkips(text, p);
  }

  lemma {:induction false} WrapPassPlain(text: Tokens, p: nat, w: Item, r: Forest, m: Mark, inl: bool, tail: Tokens,
                                         out: Tokens)
    requires Has(text, p, Text(w)) && Rests(text, p + 1, Print(r, tail)) && Closes(tail) && Closes(out)
    requires m == MarkBefore(text, p) && inl == InlineBefore(text, p)
    requires WrapRest(text, Where(text, tail)) == Some(out)
    ensures WrapRest(text, p) == Some(Print(Wrap(Plain(w, r), m, inl), out))
    decreases Plain(w, r), 0
  {
    var n, i := Next(m, w), InlineNext(inl, w);
    WrapPass(text, p + 1, r, n, i, tail, out);
    WrapIsOneWrap(w, r, m, inl);
    if Opens(r) {
      WrapKeepsBlanks(r, n, i);
    }
    WrapWord(text, p, w, r, Wrap(r, n, i), tail, out);
  }

  /** At a word, in front of what its later calls have left. */
  lemma {:induction false} WrapWord(text: Tokens, p: nat, w: Item, r: Forest, done: Forest, tail: Tokens, out: Tokens)
    requires Has(text, p, Text(w)) && Rests(text, p + 1, Print(r, tail)) && Closes(tail) && Closes(out)
    requires Opens(r) ==> Opens(done) && Blanks(done) == Blanks(r)
    requires WrapRest(text, p + 1) == Some(Print(done, out))
    ensures WrapRest(text, p) == Some(Print(OneWrap(w, done,
      w.Callee? && Opens(r) && !Skipped(MarkBefore(text, p), InlineBefore(text, p), Behind(done))), out))
  {
    SkipIs(text, p + 1, r, tail);
    if w.Callee? && Opens(r) {
      WrapCalls(text, p, Blanks(r), Print(done, out));
      WrapStepIs(w, done, MarkBefore(text, p), InlineBefore(text, p), out);
    } else {
      WrapSkips(text, p);
    }
  }

  // ----- Unwrapping a printed forest

  /** A forest, if it could be unwrapped, in front of what follows, if that could be. */
  function Joined(f: Option<Forest>, out: Option<Tokens>): Option<Tokens> {
    if f.Some? && out.Some? then Some(Print(f.value, out.value)) else None
  }

  lemma {:induction false} UnwrapSkips(text: Tokens, p: nat)
    requires p < |text| && !WrappedAt(text, p)
    ensures UnwrapRest(text, p) == Push(text[p], UnwrapRest(text, p + 1))
  {
  }

  /** A match starts exactly at a parenthesis that starts like a wrapped call. */
  lemma {:induction false} WrappedIs(text: Tokens, p: nat, g: Forest, tail: Tokens)
    requires Has(text, p, LPar) && Rests(text, p + 1, Print(g, tail)) && Closes(tail)
    ensures WrappedAt(text, p) <==> Wrapped(g)
  {
    HeadIs(text, p + 1, g, tail);
    if g.Plain? {
      First(text, p + 1, Text(g.word), Print(g.rest, tail));
      HeadIs(text, p + 2, g.rest, tail);
      if g.rest.Plain? {
        First(text, p + 2, Text(g.rest.word), Print(g.rest.rest, tail));
        SkipIs(text, p + 3, g.rest.rest, tail);
      }
    }
  }

  /** The first token of a printed forest. */
  lemma {:induction false} HeadIs(text: Tokens, p: nat, f: Forest, tail: Tokens)
    requires Rests(text, p, Print(f, tail)) && Closes(tail)
    ensures forall w :: Has(text, p, Text(w)) <==> f.Plain? && f.word == w
  {
    if p < |text| {
      assert text[p] == text[p..][0];
    }
  }

  /** Unwrapping a text from a printed forest on, given what becomes of the rest. */
  lemma {:induction false} UnwrapPass(text: Tokens, p: nat, f: Forest, tail: Tokens, out: Option<Tokens>)
    requires Rests(text, p, Print(f, tail)) && Closes(tail)
    requires UnwrapRest(text, Where(text, tail)) == out
    ensures UnwrapRest(text, p) == Joined(Unwrap(f, false), out)
    decreases Size(f), 3
  {
    match f
    case End =>
    case Plain(w, r) =>
      First(text, p, Text(w), Print(r, tail));
      UnwrapPass(text, p + 1, r, tail, out);
      UnwrapSkips(text, p);
    case Paren(g, r) => UnwrapPassParen(text, p, g, r, tail, out);
  }

  lemma {:induction false} UnwrapPassParen(text: Tokens, p: nat, g: Forest, r: Forest, tail: Tokens,
                                           out: Option<Tokens>)
    requires Rests(text, p, Print(Paren(g, r), tail)) && Closes(tail)
    requires UnwrapRest(text, Where(text, tail)) == out
    ensures UnwrapRest(text, p) == Joined(Unwrap(Paren(g, r), false), out)
    decreases 1 + Size(g) + Size(r), 2
  {
    var rest := [RPar] + Print(r, tail);
    ParenAt(text, p, g, r, tail);
    WrappedIs(text, p, g, rest);
    if Wrapped(g) {
      UnwrapClosed(text, Where(text, rest), r, tail, out);
      UnwrapPassWrapped(text, p, g, r, rest, out);
    } else {
      UnwrapInside(text, p + 1, g, r, tail, out);
      UnwrapSkips(text, p);
    }
  }

  /** Behind a parenthesis that is not the start of a match. */
  lemma {:induction false} UnwrapInside(text: Tokens, p: nat, g: Forest, r: Forest, tail: Tokens, out: Option<Tokens>)
    requires Rests(text, p, Print(g, [RPar] + Print(r, tail))) && Closes(tail)
    requires UnwrapRest(text, Where(text, tail)) == out
    ensures UnwrapRest(text, p) == Joined(Unwrap(g, false), Push(RPar, Joined(Unwrap(r, false), out)))
    decreases 1 + Size(g) + Size(r), 0
  {
    var mid := Where(text, [RPar] + Print(r, tail));
    ClosedAt(text, p, g, r, tail);
    UnwrapClosed(text, mid, r, tail, out);
    UnwrapPass(text, p, g, [RPar] + Print(r, tail), Push(RPar, Joined(Unwrap(r, false), out)));
  }

  /** Where a parenthesis closes. */
  lemma {:induction false} ClosedAt(text: Tokens, p: nat, g: Forest, r: Forest, tail: Tokens)
    requires Rests(text, p, Print(g, [RPar] + Print(r, tail)))
    ensures var mid := Where(text, [RPar] + Print(r, tail));
      Has(text, mid, RPar) && Rests(text, mid + 1, Print(r, tail))
  {
    After(text, p, g, [RPar] + Print(r, tail));
    First(text, Where(text, [RPar] + Print(r, tail)), RPar, Print(r, tail));
  }

  lemma {:induction false} UnwrapClosed(text: Tokens, mid: nat, r: Forest, tail: Tokens, out: Option<Tokens>)
    requires Has(text, mid, RPar) && Rests(text, mid + 1, Print(r, tail)) && Closes(tail)
    requires UnwrapRest(text, Where(text, tail)) == out
    ensures UnwrapRest(text, mid) == Push(RPar, Joined(Unwrap(r, false), out))
    decreases Size(r), 4
  {
    UnwrapPass(text, mid + 1, r, tail, out);
    UnwrapSkips(text, mid);
  }

  /** The blanks in front of the first parenthesis, and that parenthesis. */
  function Lead(f: Forest): Tokens
    requires Opens(f)
  {
    match f
    case Plain(w, r) => [Text(w)] + Lead(r)
    case Paren(_, _) => [LPar]
  }

  lemma {:induction false} PrintRefill(f: Forest, g: Forest, r: Forest, tail: Tokens)
    requires Opens(f)
    ensures Print(Refill(f, g, r), tail) == Lead(f) + Print(g, [RPar] + Print(r, tail))
  {
    if f.Plain? {
      PrintRefill(f.rest, g, r, tail);
    }
  }

  /** The first parenthesis of a printed forest, in place. */
  lemma {:induction false} LeadAt(text: Tokens, p: nat, f: Forest, tail: Tokens, open: nat)
    requires Rests(text, p, Print(f, tail)) && Opens(f) && open == p + Blanks(f)
    ensures open < |text| && text[p..open + 1] == Lead(f)
    ensures Rests(text, open + 1, Print(Within(f), [RPar] + Print(Behind(f), tail)))
    decreases f
  {
    match f
    case Plain(w, r) =>
      First(text, p, Text(w), Print(r, tail));
      LeadAt(text, p + 1, r, tail, open);
      assert text[p..open + 1] == [text[p]] + text[p + 1..open + 1];
    case Paren(g, r) =>
      First(text, p, LPar, Print(g, [RPar] + Print(r, tail)));
  }

  /** A match, in place. */
  lemma {:induction false} MatchAt(text: Tokens, p: nat, g: Forest, tail: Tokens, open: nat)
    requires Rests(text, p + 1, Print(g, tail)) && Wrapped(g) && Closes(tail)
    requires open == p + 3 + Blanks(g.rest.rest)
    ensures SkipBlanks(text, p + 3) == open < |text| && text[p + 2..open + 1] == [Text(g.rest.word)] + Lead(g.rest.rest)
    ensures Rests(text, open + 1, Print(Within(g.rest.rest), [RPar] + Print(Behind(g.rest.rest), tail)))
  {
    First(text, p + 1, Text(Star), Print(g.rest, tail));
    First(text, p + 2, Text(g.rest.word), Print(g.rest.rest, tail));
    SkipIs(text, p + 3, g.rest.rest, tail);
    LeadAt(text, p + 3, g.rest.rest, tail, open);
    assert text[p + 2..open + 1] == [text[p + 2]] + text[p + 3..open + 1];
  }

  /** At a match. */
  lemma {:induction false} UnwrapPassWrapped(text: Tokens, p: nat, g: Forest, r: Forest, rest: Tokens,
                                             out: Option<Tokens>)
    requires WrappedAt(text, p) && Wrapped(g) && Rests(text, p + 1, Print(g, rest)) && Closes(rest)
    requires UnwrapRest(text, Where(text, rest)) == Push(RPar, Joined(Unwrap(r, false), out))
    ensures UnwrapRest(text, p) == Joined(Unwrap(Paren(g, r), false), out)
    decreases 1 + Size(g) + Size(r), 1
  {
    var args := g.rest.rest;
    var open := p + 3 + Blanks(args);
    MatchAt(text, p, g, rest, open);
    MatchIsSmaller(g);
    UnwrapInside(text, open + 1, Within(args), Behind(args), rest, Push(RPar, Joined(Unwrap(r, false), out)));
    UnwrapHere(text, p, open, g, r, out);
  }

  /** The step at a match, given what its later matches have left. */
  lemma {:induction false} UnwrapHere(text: Tokens, p: nat, open: nat, g: Forest, r: Forest, out: Option<Tokens>)
    requires Wrapped(g) && WrappedAt(text, p) && SkipBlanks(text, p + 3) == open < |text|
    requires p + 2 <= open && text[p + 2..open + 1] == [Text(g.rest.word)] + Lead(g.rest.rest)
    requires UnwrapRest(text, open + 1) ==
      Joined(Unwrap(Within(g.rest.rest), false), Push(RPar,
        Joined(Unwrap(Behind(g.rest.rest), false), Push(RPar, Joined(Unwrap(r, false), out)))))
    ensures UnwrapRest(text, p) == Joined(Unwrap(Paren(g, r), false), out)
  {
    var args := g.rest.rest;
    var inner, after, behind := Unwrap(Within(args), false), Unwrap(Behind(args), false), Unwrap(r, false);
    UnwrapParen(g, r);
    UnwrapMatch(text, p, open);
    if inner.Some? && after.Some? && behind.Some? && out.Some? {
      UnwrapStepIs([Text(g.rest.word)] + Lead(args), inner.value, after.value, Print(behind.value, out.value));
      RefillText(g.rest.word, args, inner.value, behind.value, out.value);
    }
  }

  lemma {:induction false} UnwrapMatch(text: Tokens, p: nat, open: nat)
    requires WrappedAt(text, p) && SkipBlanks(text, p + 3) == open < |text|
    ensures p + 2 <= open
    ensures UnwrapRest(text, p) ==
      match UnwrapRest(text, open + 1)
      case None => None
      case Some(behind) => UnwrapStep(text[p + 2..open + 1], behind)
  {
  }

  lemma {:induction false} RefillText(w: Item, args: Forest, inner: Forest, behind: Forest, tail: Tokens)
    requires Opens(args)
    ensures [Text(w)] + Lead(args) + Print(inner, [RPar] + Print(behind, tail)) ==
      Print(Plain(w, Refill(args, inner, behind)), tail)
  {
    PrintRefill(args, inner, behind, tail);
    var x, y := Lead(args), Print(inner, [RPar] + Print(behind, tail));
    assert [Text(w)] + x + y == [Text(w)] + (x + y);
  }

  /** Behind the parenthesis of a match: where it closes, and whether the match closes there too. */
  lemma {:induction false} MatchCloses(s: Tokens, inner: Forest, after: Forest, closing: Tokens)
    requires s == Print(inner, [RPar] + Print(after, closing)) && closing != [] && closing[0] == RPar
    ensures |Print(after, closing)| < |s|
    ensures var end := Where(s, Print(after, closing));
      CloseFrom(s, 0, 1) == Some(end) && (Has(s, end, RPar) <==> after.End?)
  {
    var rest := [RPar] + Print(after, closing);
    After(s, 0, inner, rest);
    PassForest(s, 0, inner, rest, 1);
    First(s, Where(s, rest), RPar, Print(after, closing));
    var end := Where(s, Print(after, closing));
    assert s[end] == s[end..][0];
  }

  /** A match without the parenthesis that closes it. */
  lemma {:induction false} MatchCut(call: Tokens, inner: Forest, rest: Tokens)
    ensures var closing := [RPar] + rest;
      var s := Print(inner, [RPar] + closing);
      |closing| < |s| && call + s[..|s| - |closing|] + s[|s| - |closing| + 1..] == call + Print(inner, closing)
  {
    var closing := [RPar] + rest;
    var s := Print(inner, [RPar] + closing);
    Retail(inner, [RPar] + closing, closing);
    EndsWith(inner, [RPar] + closing);
    DropOne(call, s, rest);
  }

  lemma {:induction false} DropOne(call: Tokens, s: Tokens, rest: Tokens)
    requires |s| >= |rest| + 2 && s[|s| - |rest| - 2..] == [RPar] + ([RPar] + rest)
    ensures call + s[..|s| - |rest| - 1] + s[|s| - |rest|..] == call + Cut(s, |rest| + 2, [RPar] + rest)
  {
    var end := s[|s| - |rest| - 2..];
    assert s[|s| - |rest|..] == end[2..] == rest;
    var kept := s[..|s| - |rest| - 2];
    assert s[..|s| - |rest| - 1] == kept + [RPar];
    assert call + (kept + [RPar]) + rest == call + (kept + ([RPar] + rest));
  }

  lemma {:induction false} UnwrapStepAt(call: Tokens, s: Tokens, end: nat)
    requires CloseFrom(s, 0, 1) == Some(end)
    ensures UnwrapStep(call, s) == if Has(s, end, RPar) then Some(call + s[..end] + s[end + 1..]) else None
  {
  }

  /** A step at a printed match: the parenthesis goes if it closes right behind the arguments. */
  lemma {:induction false} UnwrapStepIs(call: Tokens, inner: Forest, after: Forest, rest: Tokens)
    ensures UnwrapStep(call, Print(inner, [RPar] + Print(after, [RPar] + rest))) ==
      if after.End? then Some(call + Print(inner, [RPar] + rest)) else None
  {
    var s := Print(inner, [RPar] + Print(after, [RPar] + rest));
    MatchCloses(s, inner, after, [RPar] + rest);
    UnwrapStepAt(call, s, Where(s, Print(after, [RPar] + rest)));
    if after.End? {
      MatchCut(call, inner, rest);
    }
  }
}

/** Wrapping and unwrapping of calls on parenthesised text read as a forest, and exactly when
    wrapping twice is wrapping once and when unwrapping undoes wrapping. */
module CallForests {
  import opened Common

  /** The name that is rewritten, with or without its namespace, and the other words of a text.
      Inline is any word that contains `inline`. */
  datatype Item = Callee(qualified: bool) | Star | Brace | Newline | Blank | Inline | Other(id: nat)

  /** Text in which every parenthesis has its partner. */
  datatype Forest = End | Plain(word: Item, rest: Forest) | Paren(inner: Forest, rest: Forest)

  predicate IsBlank(w: Item) {
    w == Blank || w == Newline
  }

  /** The first thing that is not blank is a parenthesis. */
  predicate Opens(f: Forest) {
    match f
    case End => false
    case Plain(w, r) => IsBlank(w) && Opens(r)
    case Paren(_, _) => true
  }

  /** The first thing that is not blank is a brace. */
  predicate Braces(f: Forest) {
    f.Plain? && (f.word == Brace || (IsBlank(f.word) && Braces(f.rest)))
  }

  /** The empty forest that every forest ends with. */
  function Last(f: Forest): (r: Forest)
    ensures r.End?
  {
    match f
    case End => f
    case Plain(_, r) => Last(r)
    case Paren(_, r) => Last(r)
  }

  /** The blanks and the first parenthesis. */
  function Args(f: Forest): (r: Forest)
    requires Opens(f)
    ensures Opens(r)
  {
    match f
    case Plain(w, r) => Plain(w, Args(r))
    case Paren(g, r) => Paren(g, Last(r))
  }

  /** What follows the first parenthesis. */
  function Behind(f: Forest): Forest
    requires Opens(f)
  {
    match f
    case Plain(_, r) => Behind(r)
    case Paren(_, r) => r
  }

  /** What the first parenthesis contains. */
  function Within(f: Forest): Forest
    requires Opens(f)
  {
    match f
    case Plain(_, r) => Within(r)
    case Paren(g, _) => g
  }

  function Size(f: Forest): nat {
    match f
    case End => 0
    case Plain(_, r) => 1 + Size(r)
    case Paren(g, r) => 1 + Size(g) + Size(r)
  }

  lemma {:induction false} PartsAreSmaller(f: Forest)
    requires Opens(f)
    ensures Size(Within(f)) + Size(Behind(f)) < Size(f)
  {
    if f.Plain? {
      PartsAreSmaller(f.rest);
    }
  }

  /** Other contents and another continuation for the first parenthesis. */
  function Refill(f: Forest, g: Forest, r: Forest): (h: Forest)
    requires Opens(f)
    ensures Opens(h)
  {
    match f
    case Plain(w, s) => Plain(w, Refill(s, g, r))
    case Paren(_, _) => Paren(g, r)
  }

  function Append(f: Forest, g: Forest): Forest {
    match f
    case End => g
    case Plain(w, r) => Plain(w, Append(r, g))
    case Paren(h, r) => Paren(h, Append(r, g))
  }

  lemma {:induction false} ArgsAndBehind(f: Forest)
    requires Opens(f)
    ensures Append(Args(f), Behind(f)) == f
  {
    if f.Plain? {
      ArgsAndBehind(f.rest);
    }
  }

  // ----- Wrapping

  /** What stands directly in front: an opening parenthesis, one with a star, or something else. */
  datatype Mark = Opened | OpenedStar | Elsewhere

  function Next(m: Mark, w: Item): Mark {
    if m == Opened && w == Star then OpenedStar else Elsewhere
  }

  /** Whether `inline` has been read on the current line, behind a word. */
  predicate InlineNext(inl: bool, w: Item) {
    w == Inline || (inl && w != Newline)
  }

  predicate InlineBehind(inl: bool, f: Forest)
    decreases f
  {
    match f
    case End => inl
    case Plain(w, r) => InlineBehind(InlineNext(inl, w), r)
    case Paren(g, r) => InlineBehind(InlineBehind(inl, g), r)
  }

  /** A call that is left alone: it is dereferenced already, or it heads an inline definition. */
  predicate Skipped(m: Mark, inl: bool, behind: Forest) {
    m == OpenedStar || (inl && Braces(behind))
  }

  /** Every other call `Name(args)` becomes `(*Name(args))`, the last ones first. */
  function Wrap(f: Forest, m: Mark, inl: bool): (r: Forest)
    ensures Opens(f) ==> Opens(r)
  {
    match f
    case End => f
    case Paren(g, rest) => Paren(Wrap(g, Opened, inl), Wrap(rest, Elsewhere, InlineBehind(inl, g)))
    case Plain(w, rest) =>
      var done := Wrap(rest, Next(m, w), InlineNext(inl, w));
      if w.Callee? && Opens(rest) && !Skipped(m, inl, Behind(done))
      then Paren(Plain(Star, Plain(w, Args(done))), Behind(done))
      else Plain(w, done)
  }

  // ----- Unwrapping

  /** The text of a parenthesis starts like a wrapped call. */
  predicate Wrapped(g: Forest) {
    g.Plain? && g.word == Star && g.rest.Plain? && g.rest.word.Callee? && Opens(g.rest.rest)
  }

  /** Every `(*Name(args))` loses its parenthesis and its star.  The search does not see a match
      whose own parenthesis was the last character of the match before it: `taken`.  None when what
      closes behind the arguments is not the outer parenthesis. */
  function Unwrap(f: Forest, taken: bool): (r: Option<Forest>)
    ensures taken && Opens(f) && r.Some? ==> Opens(r.value)
    ensures f.Plain? && r.Some? ==> r.value.Plain? && r.value.word == f.word
    ensures taken && Wrapped(f) && r.Some? ==> Wrapped(r.value)
    decreases f
  {
    match f
    case End => Some(f)
    case Plain(w, rest) =>
      (match Unwrap(rest, taken) case None => None case Some(r) => Some(Plain(w, r)))
    case Paren(g, rest) =>
      var matched := !taken && Wrapped(g);
      match (Unwrap(g, matched), Unwrap(rest, false))
      case (Some(h), Some(r)) =>
        if !matched then Some(Paren(h, r))
        else if Behind(h.rest.rest).End? then Some(Append(h.rest, r))
        else None
      case _ => None
  }

  lemma {:induction false} MatchIsSmaller(g: Forest)
    requires Wrapped(g)
    ensures 1 + Size(Within(g.rest.rest)) + Size(Behind(g.rest.rest)) < Size(g)
  {
    PartsAreSmaller(g.rest.rest);
    assert Size(g) == 1 + Size(g.rest) == 2 + Size(g.rest.rest);
  }

  // ----- When wrapping twice is wrapping once

  /** The next word is a call that gets wrapped. */
  predicate NextWraps(f: Forest, inl: bool) {
    f.Plain? &&
    if f.word.Callee? then Opens(f.rest) && !(inl && Braces(Behind(f.rest)))
    else IsBlank(f.word) && NextWraps(f.rest, InlineNext(inl, f.word))
  }

  /** What follows the call that gets wrapped next. */
  function BehindNext(f: Forest, inl: bool): Forest
    requires NextWraps(f, inl)
  {
    if f.word.Callee? then Behind(f.rest) else BehindNext(f.rest, InlineNext(inl, f.word))
  }

  /** Somewhere the name stands without arguments in front of a call that gets wrapped, so that the
      wrapped call reads as its arguments, and is not left alone for another reason. */
  predicate Reopens(f: Forest, m: Mark, inl: bool) {
    match f
    case End => false
    case Paren(g, r) => Reopens(g, Opened, inl) || Reopens(r, Elsewhere, InlineBehind(inl, g))
    case Plain(w, r) =>
      || Reopens(r, Next(m, w), InlineNext(inl, w))
      || (w.Callee? && NextWraps(r, inl) && !Skipped(m, inl, BehindNext(r, inl)))
  }

  lemma {:induction false} WrapKeepsBraces(f: Forest, m: Mark, inl: bool)
    ensures Braces(Wrap(f, m, inl)) == Braces(f)
  {
    if f.Plain? {
      WrapKeepsBraces(f.rest, Next(m, f.word), InlineNext(inl, f.word));
    }
  }

  /** Wrapping treats the arguments and what follows them apart. */
  lemma {:induction false} WrapArgs(f: Forest, m: Mark, inl: bool)
    requires Opens(f)
    ensures Args(Wrap(f, m, inl)) == Wrap(Args(f), m, inl)
    ensures Behind(Wrap(f, m, inl)) == Wrap(Behind(f), Elsewhere, InlineBehind(inl, Args(f)))
  {
    if f.Plain? {
      WrapArgs(f.rest, Next(m, f.word), InlineNext(inl, f.word));
    }
  }

  lemma {:induction false} BehindKeepsBraces(f: Forest, m: Mark, inl: bool)
    requires Opens(f)
    ensures Braces(Behind(Wrap(f, m, inl))) == Braces(Behind(f))
  {
    WrapArgs(f, m, inl);
    WrapKeepsBraces(Behind(f), Elsewhere, InlineBehind(inl, Args(f)));
  }

  /** After wrapping, a word is followed by a parenthesis if it was before, or if the next word is a
      call that gets wrapped. */
  lemma {:induction false} WrapOpens(f: Forest, inl: bool)
    ensures Opens(Wrap(f, Elsewhere, inl)) <==> Opens(f) || NextWraps(f, inl)
    ensures NextWraps(f, inl) ==> Braces(Behind(Wrap(f, Elsewhere, inl))) == Braces(BehindNext(f, inl))
  {
    if f.Plain? {
      if f.word.Callee? {
        if Opens(f.rest) {
          BehindKeepsBraces(f.rest, Elsewhere, inl);
        }
      } else {
        WrapOpens(f.rest, InlineNext(inl, f.word));
      }
    }
  }

  lemma {:induction false} OpensOrWraps(f: Forest, inl: bool)
    ensures !(Opens(f) && NextWraps(f, inl))
  {
    if f.Plain? && IsBlank(f.word) {
      OpensOrWraps(f.rest, InlineNext(inl, f.word));
    }
  }

  lemma {:induction false} InlineParts(f: Forest, inl: bool)
    requires Opens(f)
    ensures InlineBehind(InlineBehind(inl, Args(f)), Behind(f)) == InlineBehind(inl, f)
  {
    if f.Plain? {
      InlineParts(f.rest, InlineNext(inl, f.word));
    }
  }

  lemma {:induction false} InlineOfWrapped(w: Item, args: Forest, inl: bool)
    requires w.Callee?
    ensures InlineBehind(inl, Plain(Star, Plain(w, args))) == InlineBehind(inl, args)
  {
    assert InlineBehind(inl, Plain(w, args)) == InlineBehind(inl, args);
  }

  lemma {:induction false} WrapKeepsInline(f: Forest, m: Mark, inl: bool)
    ensures InlineBehind(inl, Wrap(f, m, inl)) == InlineBehind(inl, f)
  {
    match f
    case End =>
    case Paren(g, r) =>
      WrapKeepsInline(g, Opened, inl);
      WrapKeepsInline(r, Elsewhere, InlineBehind(inl, g));
    case Plain(w, r) =>
      var done := Wrap(r, Next(m, w), InlineNext(inl, w));
      WrapKeepsInline(r, Next(m, w), InlineNext(inl, w));
      if w.Callee? && Opens(done) {
        InlineParts(done, inl);
        InlineOfWrapped(w, Args(done), inl);
      }
  }

  /** MAIN RESULT.  Wrapping twice is wrapping once if and only if no wrapped call reads as the
      arguments of a name in front of it. */
  lemma {:induction false} WrapTwice(f: Forest, m: Mark, inl: bool)
    ensures Wrap(Wrap(f, m, inl), m, inl) == Wrap(f, m, inl) <==> !Reopens(f, m, inl)
  {
    match f
    case End =>
    case Paren(g, r) =>
      WrapTwice(g, Opened, inl);
      WrapTwice(r, Elsewhere, InlineBehind(inl, g));
      WrapKeepsInline(g, Opened, inl);
    case Plain(w, r) =>
      var n, i := Next(m, w), InlineNext(inl, w);
      var done := Wrap(r, n, i);
      WrapTwice(r, n, i);
      OpensOrWraps(r, inl);
      if w.Callee? && Opens(r) && !Skipped(m, inl, Behind(done)) {
        WrapWrapped(w, done, m, inl);
        ArgsAndBehind(done);
        ArgsAndBehind(Wrap(done, n, i));
      } else if w.Callee? {
        WrapOpens(r, inl);
        if Opens(done) {
          BehindKeepsBraces(done, n, i);
        }
      }
  }

  /** A wrapped call stays as it is, apart from its arguments and what follows. */
  lemma {:induction false} WrapWrapped(w: Item, f: Forest, m: Mark, inl: bool)
    requires w.Callee? && Opens(f)
    ensures Wrap(Paren(Plain(Star, Plain(w, Args(f))), Behind(f)), m, inl) ==
      (var again := Wrap(f, Elsewhere, inl); Paren(Plain(Star, Plain(w, Args(again))), Behind(again)))
  {
    WrapArgs(f, Elsewhere, inl);
    InlineOfWrapped(w, Args(f), inl);
    var call := Plain(w, Args(f));
    assert Wrap(call, OpenedStar, inl) == Plain(w, Wrap(Args(f), Elsewhere, inl));
    assert Wrap(Plain(Star, call), Opened, inl) == Plain(Star, Wrap(call, OpenedStar, inl));
  }

  // ----- When unwrapping undoes wrapping

  /** A parenthesis that starts like a wrapped call once the calls in it are wrapped. */
  predicate ReadsWrapped(g: Forest, inl: bool) {
    && g.Plain? && g.word == Star && g.rest.Plain? && g.rest.word.Callee?
    && (Opens(g.rest.rest) || NextWraps(g.rest.rest, inl))
  }

  /** Somewhere a parenthesis that was there before reads as a wrapped call, and is not taken for
      the argument parenthesis of a call wrapped around it. */
  predicate Broken(f: Forest, m: Mark, inl: bool, taken: bool)
    decreases f
  {
    match f
    case End => false
    case Paren(g, r) =>
      || (!taken && ReadsWrapped(g, inl))
      || Broken(g, Opened, inl, false)
      || Broken(r, Elsewhere, InlineBehind(inl, g), false)
    case Plain(w, r) =>
      var wraps := w.Callee? && Opens(r) && !Skipped(m, inl, Behind(r));
      Broken(r, Next(m, w), InlineNext(inl, w), taken || wraps)
  }

  lemma {:induction false} WrapReadsWrapped(g: Forest, inl: bool)
    ensures Wrapped(Wrap(g, Opened, inl)) <==> ReadsWrapped(g, inl)
  {
    if g.Plain? && g.word == Star && g.rest.Plain? && g.rest.word.Callee? {
      var call := g.rest;
      WrapOpens(call.rest, inl);
      assert Wrap(call, OpenedStar, inl) == Plain(call.word, Wrap(call.rest, Elsewhere, inl));
      assert Wrap(g, Opened, inl) == Plain(Star, Wrap(call, OpenedStar, inl));
    }
  }

  /** Unwrapping treats taken arguments and what follows them apart. */
  lemma {:induction false} UnwrapArgs(f: Forest)
    requires Opens(f)
    ensures var a, b := Unwrap(Args(f), true), Unwrap(Behind(f), false);
      if a.Some? && b.Some?
      then Opens(a.value) && Behind(a.value).End? && Unwrap(f, true) == Some(Append(a.value, b.value))
      else Unwrap(f, true) == None
  {
    if f.Plain? {
      UnwrapArgs(f.rest);
    }
  }

  /** Unwrapping behind a taken parenthesis. */
  lemma {:induction false} UnwrapTaken(f: Forest)
    requires Opens(f)
    ensures var g, r := Unwrap(Within(f), false), Unwrap(Behind(f), false);
      Unwrap(f, true) == if g.Some? && r.Some? then Some(Refill(f, g.value, r.value)) else None
  {
    if f.Plain? {
      UnwrapTaken(f.rest);
    }
  }

  lemma {:induction false} RefillParts(f: Forest, g: Forest, r: Forest, s: Forest)
    requires Opens(f)
    ensures Behind(Refill(f, g, r)) == r
    ensures r.End? ==> Append(Refill(f, g, r), s) == Refill(f, g, s)
  {
    if f.Plain? {
      RefillParts(f.rest, g, r, s);
    }
  }

  /** Unwrapping a wrapped call, by the contents of its own parenthesis and what follows. */
  lemma {:induction false} UnwrapParen(g: Forest, r: Forest)
    requires Wrapped(g)
    ensures var args := g.rest.rest;
      var inner, after, behind := Unwrap(Within(args), false), Unwrap(Behind(args), false), Unwrap(r, false);
      Unwrap(Paren(g, r), false) ==
        if inner.Some? && after.Some? && behind.Some? && after.value.End?
        then Some(Plain(g.rest.word, Refill(args, inner.value, behind.value))) else None
  {
    var args := g.rest.rest;
    UnwrapTaken(args);
    var inner, after, behind := Unwrap(Within(args), false), Unwrap(Behind(args), false), Unwrap(r, false);
    assert Unwrap(g, true) == match Unwrap(g.rest, true) case None => None case Some(x) => Some(Plain(Star, x));
    if inner.Some? && after.Some? && behind.Some? {
      RefillParts(args, inner.value, after.value, behind.value);
    }
  }

  /** MAIN RESULT.  Unwrapping after wrapping gives back the text if and only if no parenthesis of
      the text reads as a wrapped call. */
  lemma {:induction false} WrapUnwrap(f: Forest, m: Mark, inl: bool, taken: bool)
    requires taken ==> Opens(f)
    ensures Unwrap(Wrap(f, m, inl), taken) == Some(f) <==> !Broken(f, m, inl, taken)
    decreases f
  {
    match f
    case End =>
    case Paren(g, r) =>
      WrapReadsWrapped(g, inl);
      WrapUnwrap(g, Opened, inl, false);
      WrapUnwrap(r, Elsewhere, InlineBehind(inl, g), false);
    case Plain(w, r) =>
      var n, i := Next(m, w), InlineNext(inl, w);
      var done := Wrap(r, n, i);
      if w.Callee? && Opens(r) {
        BehindKeepsBraces(r, n, i);
        WrapUnwrap(r, n, i, !Skipped(m, inl, Behind(r)));
        if !Skipped(m, inl, Behind(r)) {
          UnwrapWrapped(w, done);
        }
      } else {
        WrapUnwrap(r, n, i, taken);
      }
  }

  /** A wrapped call loses its parenthesis, and its arguments and what follows are unwrapped. */
  lemma {:induction false} UnwrapWrapped(w: Item, f: Forest)
    requires w.Callee? && Opens(f)
    ensures Unwrap(Paren(Plain(Star, Plain(w, Args(f))), Behind(f)), false) ==
      match Unwrap(f, true) case None => None case Some(r) => Some(Plain(w, r))
  {
    UnwrapArgs(f);
    var call := Plain(w, Args(f));
    assert Wrapped(Plain(Star, call));
    var a := Unwrap(Args(f), true);
    assert Unwrap(call, true) == match a case None => None case Some(r) => Some(Plain(w, r));
  }

  // ----- Texts for which both hold, and texts for which they do not

  /** The name is always followed by its arguments. */
  predicate AlwaysCalled(f: Forest) {
    match f
    case End => true
    case Paren(g, r) => AlwaysCalled(g) && AlwaysCalled(r)
    case Plain(w, r) => AlwaysCalled(r) && (w.Callee? ==> Opens(r))
  }

  /** No call is wrapped yet. */
  predicate NothingWrapped(f: Forest) {
    match f
    case End => true
    case Paren(g, r) => !Wrapped(g) && NothingWrapped(g) && NothingWrapped(r)
    case Plain(_, r) => NothingWrapped(r)
  }

  lemma {:induction false} CalledIsSafe(f: Forest, m: Mark, inl: bool, taken: bool)
    requires AlwaysCalled(f)
    ensures !Reopens(f, m, inl)
    ensures NothingWrapped(f) ==> !Broken(f, m, inl, taken)
    decreases f
  {
    match f
    case End =>
    case Paren(g, r) =>
      CalledIsSafe(g, Opened, inl, false);
      assert g.Plain? ==> AlwaysCalled(g.rest);
      CalledIsSafe(r, Elsewhere, InlineBehind(inl, g), false);
    case Plain(w, r) =>
      OpensOrWraps(r, inl);
      CalledIsSafe(r, Next(m, w), InlineNext(inl, w), taken || (w.Callee? && Opens(r) && !Skipped(m, inl, Behind(r))));
  }

  /** `Name Name(x)` is wrapped differently the second time. */
  lemma {:induction false} NameBeforeCall()
    ensures var name, x := Callee(false), Other(0);
      var f := Plain(name, Plain(Blank, Plain(name, Paren(Plain(x, End), End))));
      Wrap(Wrap(f, Elsewhere, false), Elsewhere, false) != Wrap(f, Elsewhere, false)
  {
    var name, x := Callee(false), Other(0);
    var call := Plain(name, Paren(Plain(x, End), End));
    var f := Plain(name, Plain(Blank, call));
    assert NextWraps(Plain(Blank, call), false);
    WrapTwice(f, Elsewhere, false);
  }

  /** `(*Name Name(x))` contains no wrapped call, and yet unwrapping does not undo its wrapping. */
  lemma {:induction false} StarredNameBeforeCall()
    ensures var name, x := Callee(false), Other(0);
      var f := Paren(Plain(Star, Plain(name, Plain(Blank, Plain(name, Paren(Plain(x, End), End))))), End);
      NothingWrapped(f) && Unwrap(Wrap(f, Elsewhere, false), false) != Some(f)
  {
    var name, x := Callee(false), Other(0);
    var call := Plain(name, Paren(Plain(x, End), End));
    var g := Plain(Star, Plain(name, Plain(Blank, call)));
    assert NextWraps(call, false);
    assert NextWraps(Plain(Blank, call), false);
    assert !Opens(Plain(Blank, call));
    assert NothingWrapped(call);
    assert NothingWrapped(Plain(Blank, call));
    assert ReadsWrapped(g, false);
    WrapUnwrap(Paren(g, End), Elsewhere, false, false);
  }
}

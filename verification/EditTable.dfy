/** The edit table of the reference translator: edits keyed by source span, applied in place from
    the back, and the single left-to-right substitution that this amounts to. */
module EditTable {
  import opened Common

  datatype Span = Span(start: nat, end: nat)

  datatype Edit = Edit(span: Span, replacement: string)

  predicate Before(a: Span, b: Span) {
    a.start < b.start || (a.start == b.start && a.end < b.end)
  }

  /** The edits of a table in ascending span order. */
  ghost predicate Lists(list: seq<Edit>, edits: map<Span, string>) {
    && (forall i, j :: 0 <= i < j < |list| ==> Before(list[i].span, list[j].span))
    && (forall i :: 0 <= i < |list| ==> list[i].span in edits && edits[list[i].span] == list[i].replacement)
    && (forall span :: span in edits ==> exists i :: 0 <= i < |list| && list[i].span == span)
  }

  ghost predicate Disjoint(a: Span, b: Span) {
    a.end <= b.start || b.end <= a.start
  }

  ghost predicate SpansFit(spans: set<Span>, length: nat) {
    forall span :: span in spans ==> span.start <= span.end <= length
  }

  /** An edit inside a removed function range that is not itself the removal of a range. */
  predicate Suppressed(span: Span, removed: set<Span>) {
    span !in removed && exists range :: range in removed && range.start <= span.start && span.end <= range.end
  }

  function Filtered(edits: map<Span, string>, removed: set<Span>): map<Span, string> {
    map span | span in edits && !Suppressed(span, removed) :: edits[span]
  }

  /** Any two edits are disjoint unless one of them disappears with a removed range. */
  ghost predicate Compatible(edits: map<Span, string>, removed: set<Span>) {
    forall a, b :: a in edits && b in edits && a != b ==>
      Disjoint(a, b) || Suppressed(a, removed) || Suppressed(b, removed)
  }

  predicate Chained(edits: seq<Edit>, length: nat) {
    && (forall i :: 0 <= i < |edits| ==> edits[i].span.start <= edits[i].span.end <= length)
    && (forall i :: 0 <= i < |edits| - 1 ==> edits[i].span.end <= edits[i + 1].span.start)
  }

  /** One pass from left to right: copy up to the next edit, emit its replacement, skip its span. */
  function Substitute(text: string, edits: seq<Edit>, from: nat): string
    requires from <= |text| && Chained(edits, |text|)
    requires edits != [] ==> from <= edits[0].span.start
  {
    if edits == [] then text[from..]
    else text[from..edits[0].span.start] + edits[0].replacement + Substitute(text, edits[1..], edits[0].span.end)
  }

  /** Disjoint spans in ascending order chain up, including an insertion point that shares its
      start with a replacement or its end with one. */
  lemma {:induction false} AscendingChains(list: seq<Edit>, edits: map<Span, string>, length: nat)
    requires Lists(list, edits) && SpansFit(edits.Keys, length)
    requires forall a, b :: a in edits && b in edits && a != b ==> Disjoint(a, b)
    ensures Chained(list, length)
  {
    forall i | 0 <= i < |list| - 1
      ensures list[i].span.end <= list[i + 1].span.start
    {
      var a, b := list[i].span, list[i + 1].span;
      assert Before(a, b) && Disjoint(a, b);
    }
  }

  lemma {:induction false} Rejoin(text: string, a: nat, b: nat, c: nat, tail: string)
    requires a <= b <= c <= |text|
    ensures text[a..b] + (text[b..c] + tail) == text[a..c] + tail
    ensures (text[..c] + tail)[..a] == text[..a]
    ensures (text[..c] + tail)[b..] == text[b..c] + tail
  {
  }

  /** Starting the pass earlier only copies more. */
  lemma {:induction false} SubstituteEarlier(text: string, edits: seq<Edit>, from: nat, at: nat)
    requires Chained(edits, |text|) && from <= at <= |text|
    requires edits != [] ==> at <= edits[0].span.start
    ensures Substitute(text, edits, from) == text[from..at] + Substitute(text, edits, at)
  {
    if edits == [] {
      assert text[from..] == text[from..at] + text[at..];
    } else {
      var s := edits[0].span.start;
      var tail := edits[0].replacement + Substitute(text, edits[1..], edits[0].span.end);
      Rejoin(text, from, at, s, tail);
      assert text[at..s] + tail == Substitute(text, edits, at);
      assert text[from..s] + tail == Substitute(text, edits, from);
    }
  }

  lemma {:induction false} SubstituteHere(text: string, edits: seq<Edit>)
    requires Chained(edits, |text|) && edits != []
    ensures Substitute(text, edits, edits[0].span.start) ==
            edits[0].replacement + Substitute(text, edits[1..], edits[0].span.end)
  {
    var s := edits[0].span.start;
    assert text[s..s] + edits[0].replacement == edits[0].replacement;
  }

  /** The text with an edited suffix: everything from the first edit on is substituted. */
  function Edited(text: string, edits: seq<Edit>): string
    requires Chained(edits, |text|)
  {
    var at := if edits == [] then |text| else edits[0].span.start;
    text[..at] + Substitute(text, edits, at)
  }

  /** One in-place edit in front of an already edited suffix. */
  lemma {:induction false} EditStep(text: string, edits: seq<Edit>)
    requires Chained(edits, |text|) && edits != []
    ensures edits[0].span.end <= |Edited(text, edits[1..])|
    ensures var now, span := Edited(text, edits[1..]), edits[0].span;
            now[..span.start] + edits[0].replacement + now[span.end..] == Edited(text, edits)
  {
    var s, e, rest := edits[0].span.start, edits[0].span.end, edits[1..];
    var at := if rest == [] then |text| else rest[0].span.start;
    var tail := Substitute(text, rest, at);
    var now := text[..at] + tail;
    SubstituteEarlier(text, rest, e, at);
    Rejoin(text, s, e, at, tail);
    SubstituteHere(text, edits);
    Regroup(text[..s], edits[0].replacement, Substitute(text, rest, e));
  }

  lemma {:induction false} Regroup(a: string, b: string, c: string)
    ensures a + b + c == a + (b + c)
  {
  }

  /** The whole pass copies the text up to the first edit and then substitutes. */
  lemma {:induction false} EditedIsSubstitute(text: string, edits: seq<Edit>)
    requires Chained(edits, |text|)
    ensures Edited(text, edits) == Substitute(text, edits, 0)
  {
    var at := if edits == [] then |text| else edits[0].span.start;
    SubstituteEarlier(text, edits, 0, at);
    assert text[0..at] == text[..at];
  }

  /** In-place application from the back. */
  method SpliceFromBack(text: string, sorted: seq<Edit>) returns (result: string)
    requires Chained(sorted, |text|)
    ensures result == Substitute(text, sorted, 0)
  {
    result := text;
    assert Edited(text, []) == text;
    var i: nat := |sorted|;
    while i > 0
      invariant i <= |sorted| && Chained(sorted[i..], |text|)
      invariant result == Edited(text, sorted[i..])
    {
      i := i - 1;
      assert sorted[i..][1..] == sorted[i + 1..];
      EditStep(text, sorted[i..]);
      var span := sorted[i].span;
      result := result[..span.start] + sorted[i].replacement + result[span.end..];
    }
    assert sorted[0..] == sorted;
    EditedIsSubstitute(text, sorted);
  }

  /** What survives the filter is pairwise disjoint and fits. */
  lemma {:induction false} FilteredIsDisjoint(edits: map<Span, string>, removed: set<Span>, length: nat)
    requires SpansFit(edits.Keys, length) && Compatible(edits, removed)
    ensures SpansFit(Filtered(edits, removed).Keys, length)
    ensures var kept := Filtered(edits, removed);
            forall a, b :: a in kept && b in kept && a != b ==> Disjoint(a, b)
  {
  }

  lemma {:induction false} ListsExtend(list: seq<Edit>, chosen: map<Span, string>, left: set<Span>, least: Span)
    requires left <= chosen.Keys && least in left && Lists(list, chosen - left)
    requires forall i :: 0 <= i < |list| ==> Before(list[i].span, least)
    ensures Lists(list + [Edit(least, chosen[least])], chosen - (left - {least}))
  {
    var longer := list + [Edit(least, chosen[least])];
    forall span | span in chosen - (left - {least})
      ensures exists i :: 0 <= i < |longer| && longer[i].span == span
    {
      if span == least {
        assert longer[|list|].span == span;
      } else {
        assert span in chosen - left;
        var i :| 0 <= i < |list| && list[i].span == span;
        assert longer[i].span == span;
      }
    }
  }

  class Table {
    var edits: map<Span, string>

    constructor ()
      ensures edits == map[]
    {
      edits := map[];
    }

    /** _add: a repeated edit is accepted once, a different one at the same span is refused. */
    method Add(start: nat, end: nat, replacement: string) returns (outcome: Result<()>)
      modifies this
      ensures outcome.Err? <==> Span(start, end) in old(edits) && old(edits)[Span(start, end)] != replacement
      ensures outcome.Ok? ==> edits == old(edits)[Span(start, end) := replacement]
      ensures outcome.Err? ==> edits == old(edits)
    {
      var key := Span(start, end);
      if key in edits && edits[key] != replacement {
        return Err("conflicting source edits");
      }
      edits := edits[key := replacement];
      outcome := Ok(());
    }

    /** sorted(...): selection of the least remaining span. */
    method Sorted(chosen: map<Span, string>) returns (list: seq<Edit>)
      ensures Lists(list, chosen)
    {
      list := [];
      var left := chosen.Keys;
      while left != {}
        invariant left <= chosen.Keys
        invariant Lists(list, chosen - left)
        invariant forall i, span :: 0 <= i < |list| && span in left ==> Before(list[i].span, span)
        decreases |left|
      {
        var least := Least(left);
        ListsExtend(list, chosen, left, least);
        list := list + [Edit(least, chosen[least])];
        left := left - {least};
      }
      assert chosen - {} == chosen;
    }

    method Least(spans: set<Span>) returns (least: Span)
      requires spans != {}
      ensures least in spans && forall span :: span in spans && span != least ==> Before(least, span)
    {
      least :| least in spans;
      var rest := spans - {least};
      while rest != {}
        invariant rest <= spans && least in spans && least !in rest
        invariant forall span :: span in spans && span !in rest && span != least ==> Before(least, span)
        decreases |rest|
      {
        var other :| other in rest;
        rest := rest - {other};
        if Before(other, least) {
          least := other;
        }
      }
    }

    /** The end of translate: filter, sort, and splice from the back.  For compatible edits this is
        one left-to-right substitution over the original text. */
    method ApplyTo(text: string, removed: set<Span>) returns (result: string, ghost list: seq<Edit>)
      requires SpansFit(edits.Keys, |text|) && Compatible(edits, removed)
      ensures Lists(list, Filtered(edits, removed)) && Chained(list, |text|)
      ensures result == Substitute(text, list, 0)
    {
      var filtered := Filtered(edits, removed);
      var sorted := Sorted(filtered);
      list := sorted;
      FilteredIsDisjoint(edits, removed, |text|);
      AscendingChains(sorted, filtered, |text|);
      result := SpliceFromBack(text, sorted);
    }
  }
}

/** fold_boolean_template_branches as a whole: what one fold does to a printed program, and the loop
    that folds until no listed branch is found. */
module BranchRuns {
  import opened Common
  import opened BranchSyntax
  import opened BranchFolding
  import opened Pieces

  // ----- One fold of a printed branch

  /** The chain as far as the folder sees it. */
  function Seen(c: Chain): Chain {
    c.(rest := Cut(c.rest))
  }

  lemma {:induction false} BranchHeadIs(text: Text, p: nat, c: Chain)
    requires At(text, p, PrintChain(c)) && CondOk(c.cond)
    ensures SimpleHead(text, p) ==
      if c.cond.Simple? then Some(Head(c.cond.name, c.cond.negated, p + |Front(c.cond)|)) else None
  {
    var rest := PrintStmts(c.body) + [RBrace] + PrintAlt(c.rest);
    assert PrintChain(c) == Front(c.cond) + [LBrace] + rest;
    AtParts(text, p, Front(c.cond) + [LBrace], rest);
    HeadIs(text, p, c.cond);
  }

  lemma {:induction false} BodyIs(text: Text, p: nat, c: Chain)
    requires At(text, p, PrintChain(c))
    ensures text[p + |Front(c.cond)| + 1..p + |Front(c.cond)| + |Braced(c.body)| - 1] == PrintStmts(c.body)
  {
    AtThree(text, p, Front(c.cond), Braced(c.body), PrintAlt(c.rest));
    BracedInside(text, p + |Front(c.cond)|, c.body);
  }

  lemma {:induction false} TailIs(text: Text, p: nat, a: Alt)
    requires At(text, p, PrintAlt(a))
    ensures p + |PrintAlt(Cut(a))| <= p + |PrintAlt(a)| <= |text|
    ensures text[p + |PrintAlt(Cut(a))|..] == Tail(a) + text[p + |PrintAlt(a)|..]
  {
    var front, tail := PrintAlt(Cut(a)), Tail(a);
    assert PrintAlt(a) == front + tail by {
      CutAndTail(a);
    }
    AtParts(text, p, front, tail);
    AtRest(text, p + |front|, tail);
  }

  lemma {:induction false} ElseOfLink(text: Text, p: nat, c: Chain, next: nat, end: nat)
    requires At(text, p, PrintChain(c)) && NoElseAt(text, p + |PrintChain(c)|)
    requires ChainOk(c) && next == p + |Front(c.cond)| + |Braced(c.body)|
    requires end == next + |PrintAlt(Cut(c.rest))|
    ensures next <= |text|
    ensures ElsePart(text, next) == Some((PrintStmts(AltStmts(Cut(c.rest))), end))
  {
    LinkIs(text, p, c, p + |Front(c.cond)|, next);
    ElsePartIs(text, next, c.rest);
  }

  lemma {:induction false} TailOfLink(text: Text, p: nat, c: Chain, next: nat, end: nat)
    requires At(text, p, PrintChain(c)) && ChainOk(c)
    requires next == p + |Front(c.cond)| + |Braced(c.body)| && end == next + |PrintAlt(Cut(c.rest))|
    ensures end <= |text| && p + |PrintChain(c)| <= |text|
    ensures text[end..] == Tail(c.rest) + text[p + |PrintChain(c)|..]
  {
    LinkIs(text, p, c, p + |Front(c.cond)|, next);
    TailIs(text, next, c.rest);
  }

  lemma {:induction false} HeadOfLink(text: Text, p: nat, c: Chain, open: nat, next: nat)
    requires At(text, p, PrintChain(c)) && ChainOk(c) && c.cond.Simple?
    requires open == p + |Front(c.cond)| && next == open + |Braced(c.body)|
    ensures open + 1 < next <= |text|
    ensures SimpleHead(text, p) == Some(Head(c.cond.name, c.cond.negated, open))
    ensures text[open + 1..next - 1] == PrintStmts(c.body)
    ensures CloseFrom(text, open + 1, 1) == Some(next - 1)
  {
    BranchHeadIs(text, p, c);
    BodyIs(text, p, c);
    LinkIs(text, p, c, open, next);
  }

  /** A fold, put together from what its searches return. */
  lemma {:induction false} FoldStep(text: Text, p: nat, head: Head, value: bool, next: nat, chosen: seq<Stmt>)
    requires SimpleHead(text, p) == Some(head) && next > head.open
    requires CloseFrom(text, head.open + 1, 1) == Some(next - 1) && ElsePart(text, next).Some?
    requires PrintStmts(chosen) ==
      if value != head.negated then text[head.open + 1..next - 1] else ElsePart(text, next).value.0
    ensures FoldAt(text, p, head, value) == Some(text[..p] + Braced(chosen) + text[ElsePart(text, next).value.1..])
  {
    FoldAtIs(text, p, head, value, next, PrintStmts(chosen));
    Assoc(text[..p], [LBrace], PrintStmts(chosen));
    Assoc(text[..p], [LBrace] + PrintStmts(chosen), [RBrace]);
  }

  lemma {:induction false} FoldAtIs(text: Text, p: nat, head: Head, value: bool, next: nat, selected: Text)
    requires SimpleHead(text, p) == Some(head) && next > head.open
    requires CloseFrom(text, head.open + 1, 1) == Some(next - 1) && ElsePart(text, next).Some?
    requires selected == if value != head.negated then text[head.open + 1..next - 1] else ElsePart(text, next).value.0
    ensures FoldAt(text, p, head, value) ==
      Some(text[..p] + [LBrace] + selected + [RBrace] + text[ElsePart(text, next).value.1..])
  {
    var close, other := next - 1, ElsePart(text, next).value;
    assert CloseFrom(text, head.open + 1, 1) == Some(close) && ElsePart(text, close + 1) == Some(other);
    assert selected == if value != head.negated then text[head.open + 1..close] else other.0;
  }

  lemma {:induction false} FoldStepChain(text: Text, p: nat, c: Chain, value: bool, open: nat, next: nat, end: nat,
                                         behind: Text)
    requires c.cond.Simple? && open + 1 < next <= |text|
    requires SimpleHead(text, p) == Some(Head(c.cond.name, c.cond.negated, open))
    requires ElsePart(text, next) == Some((PrintStmts(AltStmts(Cut(c.rest))), end))
    requires text[open + 1..next - 1] == PrintStmts(c.body)
    requires CloseFrom(text, open + 1, 1) == Some(next - 1)
    requires end <= |text| && text[end..] == behind
    ensures FoldAt(text, p, SimpleHead(text, p).value, value) ==
      Some(text[..p] + Braced(Selected(Seen(c), value)) + behind)
  {
    FoldStep(text, p, SimpleHead(text, p).value, value, next, Selected(Seen(c), value));
  }

  lemma {:induction false} FoldOfLink(text: Text, p: nat, c: Chain, value: bool, open: nat, next: nat,
                                      end: nat, behind: Text)
    requires At(text, p, PrintChain(c)) && NoElseAt(text, p + |PrintChain(c)|)
    requires ChainOk(c) && c.cond.Simple?
    requires open == p + |Front(c.cond)| && next == open + |Braced(c.body)| && end == next + |PrintAlt(Cut(c.rest))|
    ensures SimpleHead(text, p) == Some(Head(c.cond.name, c.cond.negated, open))
    requires end <= |text| && text[end..] == behind
    ensures FoldAt(text, p, SimpleHead(text, p).value, value) ==
      Some(text[..p] + Braced(Selected(Seen(c), value)) + behind)
  {
    HeadOfLink(text, p, c, open, next);
    ElseOfLink(text, p, c, next, end);
    FoldStepChain(text, p, c, value, open, next, end, behind);
  }

  lemma {:induction false} FoldOfChain(text: Text, p: nat, c: Chain, value: bool, open: nat, next: nat,
                                       end: nat)
    requires At(text, p, PrintChain(c)) && NoElseAt(text, p + |PrintChain(c)|)
    requires ChainOk(c) && c.cond.Simple?
    requires open == p + |Front(c.cond)| && next == open + |Braced(c.body)| && end == next + |PrintAlt(Cut(c.rest))|
    ensures p + |PrintChain(c)| <= |text|
    ensures SimpleHead(text, p) == Some(Head(c.cond.name, c.cond.negated, open))
    ensures FoldAt(text, p, SimpleHead(text, p).value, value) ==
      Some(text[..p] + Braced(Selected(Seen(c), value)) + (Tail(c.rest) + text[p + |PrintChain(c)|..]))
  {
    TailOfLink(text, p, c, next, end);
    FoldOfLink(text, p, c, value, open, next, end, Tail(c.rest) + text[p + |PrintChain(c)|..]);
  }

  /** A fold puts a block around the selected statements of the seen part of the chain, and leaves
      the links that it does not see behind that block. */
  lemma {:induction false} FoldLeavesTail(text: Text, p: nat, c: Chain, value: bool)
    requires At(text, p, PrintChain(c)) && NoElseAt(text, p + |PrintChain(c)|)
    requires ChainOk(c) && c.cond.Simple?
    ensures SimpleHead(text, p) == Some(Head(c.cond.name, c.cond.negated, p + |Front(c.cond)|))
    ensures FoldAt(text, p, SimpleHead(text, p).value, value) ==
      Some(text[..p] + Braced(Selected(Seen(c), value)) + (Tail(c.rest) + text[p + |PrintChain(c)|..]))
  {
    var open := p + |Front(c.cond)|;
    var next := open + |Braced(c.body)|;
    FoldOfChain(text, p, c, value, open, next, next + |PrintAlt(Cut(c.rest))|);
  }

  /** MAIN RESULT.  A fold is the program's branch replaced by a block around what the flag selects
      if and only if no link behind the folded one is an `else if constexpr`. */
  lemma {:induction false} FoldIsRightIff(text: Text, p: nat, c: Chain, value: bool)
    requires At(text, p, PrintChain(c)) && NoElseAt(text, p + |PrintChain(c)|)
    requires ChainOk(c) && c.cond.Simple?
    ensures SimpleHead(text, p) == Some(Head(c.cond.name, c.cond.negated, p + |Front(c.cond)|))
    ensures PlainLinks(c.rest) <==>
      FoldAt(text, p, SimpleHead(text, p).value, value) ==
        Some(text[..p] + Braced(Selected(c, value)) + text[p + |PrintChain(c)|..])
  {
    var before, behind := text[..p], text[p + |PrintChain(c)|..];
    FoldLeavesTail(text, p, c, value);
    SomeIff(FoldAt(text, p, SimpleHead(text, p).value, value),
            before + Braced(Selected(Seen(c), value)) + (Tail(c.rest) + behind),
            before + Braced(Selected(c, value)) + behind);
    TailMatters(before, c, value, behind);
  }

  lemma {:induction false} SomeIff(result: Option<Text>, text: Text, other: Text)
    requires result == Some(text)
    ensures result == Some(other) <==> text == other
  {
  }

  lemma {:induction false} TailMatters(before: Text, c: Chain, value: bool, behind: Text)
    requires c.cond.Simple?
    ensures PlainLinks(c.rest) <==>
      before + Braced(Selected(Seen(c), value)) + (Tail(c.rest) + behind) ==
      before + Braced(Selected(c, value)) + behind
  {
    CutAndTail(c.rest);
    if PlainLinks(c.rest) {
      assert [] + behind == behind;
    } else {
      TailShows(c, value, behind);
      SamePrefix(before, Braced(Selected(Seen(c), value)), Tail(c.rest) + behind, Braced(Selected(c, value)), behind);
    }
  }

  lemma {:induction false} SamePrefix(before: Text, a: Text, b: Text, c: Text, d: Text)
    ensures before + a + b == before + c + d ==> a + b == c + d
  {
    assert before + a + b == before + (a + b) && before + c + d == before + (c + d);
    assert (before + (a + b))[|before|..] == a + b && (before + (c + d))[|before|..] == c + d;
  }

  /** Links that are left behind stand outside the block, where they do not belong. */
  lemma {:induction false} TailShows(c: Chain, value: bool, behind: Text)
    requires c.cond.Simple? && !PlainLinks(c.rest)
    ensures Braced(Selected(Seen(c), value)) + (Tail(c.rest) + behind) != Braced(Selected(c, value)) + behind
  {
    CutAndTail(c.rest);
    if value != c.cond.negated {
      assert |Tail(c.rest)| > 0;
    } else {
      SelectedCut(c.rest);
      var seen, whole := PrintStmts(AltStmts(Cut(c.rest))), PrintStmts(AltStmts(c.rest));
      var k := 1 + |seen|;
      assert (Braced(AltStmts(Cut(c.rest))) + (Tail(c.rest) + behind))[k] == RBrace;
      assert (Braced(AltStmts(c.rest)) + behind)[k] == whole[|seen|] != RBrace;
    }
  }

  lemma {:induction false} ChainAndTail(c: Chain)
    ensures PrintChain(c) == PrintChain(Seen(c)) + Tail(c.rest)
  {
    CutAndTail(c.rest);
    Assoc(Front(c.cond) + Braced(c.body), PrintAlt(Cut(c.rest)), Tail(c.rest));
  }

  lemma {:induction false} SelectedCut(a: Alt)
    requires !PlainLinks(a)
    ensures var seen, whole := PrintStmts(AltStmts(Cut(a))), PrintStmts(AltStmts(a));
      |seen| < |whole| && whole[|seen|] != RBrace
  {
    OneBranch(a.chain);
    if !a.chain.cond.isConstexpr {
      OneBranch(Seen(a.chain));
      ChainAndTail(a.chain);
      CutAndTail(a.chain.rest);
    }
  }

  lemma {:induction false} CutOk(a: Alt)
    requires AltOk(a)
    ensures AltOk(Cut(a))
  {
    if a.ElseIf? && !a.chain.cond.isConstexpr {
      CutOk(a.chain.rest);
    }
  }

  /** A block ends where its braces balance. */
  lemma {:induction false} BlockEnds(a: seq<Stmt>, b: seq<Stmt>, x: Text, y: Text)
    requires StmtsOk(a) && StmtsOk(b) && Braced(a) + x == Braced(b) + y
    ensures x == y
  {
    var text := Braced(a) + x;
    AtParts(text, 0, Braced(a), x);
    AtParts(text, 0, Braced(b), y);
    PassBraced(text, 0, a);
    PassBraced(text, 0, b);
    assert text[|Braced(a)|..] == x && text[|Braced(b)|..] == y;
  }

  /** No program is printed as a block with an `else` behind it. */
  lemma {:induction false} NoElseBehindBlock(chosen: seq<Stmt>, tail: Text, s: seq<Stmt>)
    requires StmtsOk(chosen) && StmtsOk(s) && tail != [] && tail[0] == Else
    ensures PrintStmts(s) != Braced(chosen) + tail
  {
    if s != [] && PrintStmts(s) == Braced(chosen) + tail {
      var first := PrintStmt(s[0]);
      assert first[0] == (first + PrintStmts(s[1..]))[0] == LBrace;
      BlockEnds(chosen, s[0].body, tail, PrintStmts(s[1..]));
    }
  }

  /** The text prints some well-formed program. */
  ghost predicate IsProgram(text: Text) {
    exists s :: StmtsOk(s) && PrintStmts(s) == text
  }

  lemma {:induction false} OneStmt(s: Stmt)
    ensures PrintStmts([s]) == PrintStmt(s) && StmtsOk([s]) == StmtOk(s)
  {
    var one := [s];
    assert one[0] == s && one[1..] == [];
    assert PrintStmts(one) == PrintStmt(s) + [];
  }

  lemma {:induction false} ChosenOk(c: Chain, value: bool)
    requires ChainOk(c) && c.cond.Simple?
    ensures StmtsOk(Selected(Seen(c), value))
  {
    CutOk(c.rest);
    if Cut(c.rest).ElseIf? {
      OneStmt(Branch(Cut(c.rest).chain));
    }
  }

  lemma {:induction false} FoldOfText(text: Text, c: Chain, value: bool)
    requires At(text, 0, PrintChain(c)) && |text| == |PrintChain(c)|
    requires ChainOk(c) && c.cond.Simple?
    ensures SimpleHead(text, 0).Some?
    ensures FoldAt(text, 0, SimpleHead(text, 0).value, value) ==
      Some(Braced(Selected(Seen(c), value)) + Tail(c.rest))
  {
    FoldLeavesTail(text, 0, c, value);
    WholeText(text, Braced(Selected(Seen(c), value)), Tail(c.rest));
  }

  lemma {:induction false} WholeText(text: Text, a: Text, b: Text)
    ensures text[..0] + a + (b + text[|text|..]) == a + b
  {
  }

  /** The fold of a printed branch is again a printed program if and only if no link behind it is an
      `else if constexpr`; otherwise an `else` is left dangling. */
  lemma {:induction false} FoldIsProgramIff(text: Text, c: Chain, value: bool)
    requires At(text, 0, PrintChain(c)) && |text| == |PrintChain(c)|
    requires ChainOk(c) && c.cond.Simple?
    ensures SimpleHead(text, 0).Some?
    ensures FoldAt(text, 0, SimpleHead(text, 0).value, value).Some?
    ensures PlainLinks(c.rest) <==> IsProgram(FoldAt(text, 0, SimpleHead(text, 0).value, value).value)
  {
    var chosen := Selected(Seen(c), value);
    FoldOfText(text, c, value);
    ChosenOk(c, value);
    BlockIsProgramIff(chosen, Tail(c.rest));
    CutAndTail(c.rest);
  }

  /** `if (A) {} else if constexpr (B) {}` */
  function ConstexprLink(): Chain {
    Chain(Simple(false, false, "A"), [], ElseIf(Chain(Simple(true, false, "B"), [], NoElse)))
  }

  /** A witness: folding the first branch leaves an `else` dangling. */
  lemma {:induction false} FoldDangles(value: bool)
    ensures var text := PrintChain(ConstexprLink());
      && SimpleHead(text, 0).Some? && FoldAt(text, 0, SimpleHead(text, 0).value, value).Some?
      && !IsProgram(FoldAt(text, 0, SimpleHead(text, 0).value, value).value)
  {
    var c := ConstexprLink();
    var text := PrintChain(c);
    assert text[0..|text|] == text;
    FoldIsProgramIff(text, c, value);
  }

  lemma {:induction false} BlockIsProgramIff(chosen: seq<Stmt>, tail: Text)
    requires StmtsOk(chosen) && (tail != [] ==> tail[0] == Else)
    ensures tail == [] <==> IsProgram(Braced(chosen) + tail)
  {
    if tail == [] {
      OneStmt(Block(chosen));
      assert PrintStmts([Block(chosen)]) == Braced(chosen) == Braced(chosen) + tail;
    }
    forall s | tail != [] && StmtsOk(s)
      ensures PrintStmts(s) != Braced(chosen) + tail
    {
      NoElseBehindBlock(chosen, tail, s);
    }
  }

  // ----- One fold anywhere in a printed program

  /** A piece of the text is replaced, everything else stays. */
  ghost predicate Rewrites(text: Text, p: nat, old_: Text, new_: Text, result: Option<Text>) {
    At(text, p, old_) && result == Some(text[..p] + new_ + text[p + |old_|..])
  }

  /** A replacement inside a larger piece replaces the larger piece. */
  lemma {:induction false} Embed(text: Text, p: nat, a: Text, old_: Text, b: Text, new_: Text, result: Option<Text>)
    requires At(text, p, a + old_ + b) && Rewrites(text, p + |a|, old_, new_, result)
    ensures Rewrites(text, p, a + old_ + b, a + new_ + b, result)
  {
    AtThree(text, p, a, old_, b);
    AtRest(text, p + |a| + |old_|, b);
    AtSlice(text, p, a);
    var behind := text[p + |a + old_ + b|..];
    assert text[..p + |a|] == text[..p] + a;
    assert text[..p] + a + new_ + (b + behind) == text[..p] + (a + new_ + b) + behind;
  }

  lemma {:induction false} EmbedFirst(text: Text, p: nat, old_: Text, b: Text, new_: Text, result: Option<Text>)
    requires At(text, p, old_ + b) && Rewrites(text, p, old_, new_, result)
    ensures Rewrites(text, p, old_ + b, new_ + b, result)
  {
    assert [] + old_ + b == old_ + b && [] + new_ + b == new_ + b;
    Embed(text, p, [], old_, b, new_, result);
  }

  lemma {:induction false} EmbedLast(text: Text, p: nat, a: Text, old_: Text, new_: Text, result: Option<Text>)
    requires At(text, p, a + old_) && Rewrites(text, p + |a|, old_, new_, result)
    ensures Rewrites(text, p, a + old_, a + new_, result)
  {
    assert a + old_ + [] == a + old_ && a + new_ + [] == a + new_;
    Embed(text, p, a, old_, [], new_, result);
  }

  predicate ListedHead(t: Table, text: Text, p: nat) {
    SimpleHead(text, p).Some? && SimpleHead(text, p).value.name in t
  }

  ghost predicate NoHeads(t: Table, text: Text) {
    forall p: nat :: !ListedHead(t, text, p)
  }

  /** A listed head with the given rank stands at p. */
  predicate HeadOfRank(t: Table, rank: nat, text: Text, p: nat) {
    ListedHead(t, text, p) && t[SimpleHead(text, p).value.name].rank == rank
  }

  ghost predicate Leftmost(t: Table, rank: nat, text: Text, p: nat) {
    forall q: nat :: q < p ==> !HeadOfRank(t, rank, text, q)
  }

  /** A printed branch stands at p, complete with its else part, and the flags below a rank are dealt with. */
  ghost predicate BranchAt(t: Table, rank: nat, text: Text, p: nat, c: Chain) {
    && At(text, p, PrintChain(c)) && NoElseAt(text, p + |PrintChain(c)|)
    && ChainOk(c) && AltFreeOf(Earlier(t, rank), c.rest)
    && (Listed(t, c.cond) && t[c.cond.name].rank == rank ==> PlainBy(t, c.rest, rank))
  }

  /** The result replaces whatever printed branch stands at p by what the table selects. */
  ghost predicate Decides(t: Table, rank: nat, text: Text, p: nat, result: Option<Text>) {
    && p < |text| && text[p] == If
    && forall c: Chain {:trigger BranchAt(t, rank, text, p, c)} :: BranchAt(t, rank, text, p, c) ==>
         Listed(t, c.cond) && Rewrites(text, p, PrintChain(c), Braced(Selected(c, t[c.cond.name].value)), result)
  }

  lemma {:induction false} BranchDecided(t: Table, rank: nat, text: Text, p: nat, c: Chain)
    requires BranchAt(t, rank, text, p, c) && HeadOfRank(t, rank, text, p)
    ensures Listed(t, c.cond) && SimpleHead(text, p).value.name == c.cond.name
    ensures Rewrites(text, p, PrintChain(c), Braced(Selected(c, t[c.cond.name].value)),
                     FoldAt(text, p, SimpleHead(text, p).value, t[c.cond.name].value))
  {
    BranchHeadIs(text, p, c);
    PlainByThen(t, c.rest, rank);
    FoldIsRightIff(text, p, c, t[c.cond.name].value);
  }

  lemma {:induction false} FoldDecides(t: Table, rank: nat, text: Text, p: nat, result: Option<Text>)
    requires HeadOfRank(t, rank, text, p)
    requires result == FoldAt(text, p, SimpleHead(text, p).value, t[SimpleHead(text, p).value.name].value)
    ensures Decides(t, rank, text, p, result)
  {
    forall c: Chain | BranchAt(t, rank, text, p, c)
      ensures Listed(t, c.cond)
      ensures Rewrites(text, p, PrintChain(c), Braced(Selected(c, t[c.cond.name].value)), result)
    {
      BranchDecided(t, rank, text, p, c);
    }
  }

  /** What a flag below the limit selects is as ready as the chain was. */
  lemma {:induction false} SelectedOk(t: Table, limit: nat, c: Chain)
    requires ChainOk(c) && ChainReady(t, limit, c) && Listed(t, c.cond)
    ensures StmtsOk(Selected(c, t[c.cond.name].value)) && StmtsReady(t, limit, Selected(c, t[c.cond.name].value))
  {
    if c.rest.ElseIf? {
      OneStmt(Branch(c.rest.chain));
      OneReady(t, limit, Branch(c.rest.chain));
    }
  }

  lemma {:induction false} OneReady(t: Table, limit: nat, s: Stmt)
    ensures StmtsReady(t, limit, [s]) == StmtReady(t, limit, s)
  {
    assert [s][0] == s && [s][1..] == [];
  }

  lemma {:induction false} Cons(t: Table, limit: nat, x: Stmt, s: seq<Stmt>)
    ensures StmtsReady(t, limit, [x] + s) == (StmtReady(t, limit, x) && StmtsReady(t, limit, s))
    ensures PrintStmts([x] + s) == PrintStmt(x) + PrintStmts(s)
    ensures StmtsOk([x] + s) == (StmtOk(x) && StmtsOk(s))
    ensures Reduce(t, [x] + s) == ReduceStmt(t, x) + Reduce(t, s)
  {
    assert ([x] + s)[0] == x && ([x] + s)[1..] == s;
  }

  /** Behind a statement of a list no `else` stands. */
  lemma {:induction false} NoElseBetween(text: Text, p: nat, s: seq<Stmt>)
    requires s != [] && At(text, p, PrintStmts(s)) && NoElseAt(text, p + |PrintStmts(s)|)
    ensures NoElseAt(text, p + |PrintStmt(s[0])|)
  {
    AtParts(text, p, PrintStmt(s[0]), PrintStmts(s[1..]));
    if s[1..] != [] {
      AtFirst(text, p + |PrintStmt(s[0])|, PrintStmts(s[1..]));
    }
  }

  lemma {:induction false} FoldInStmts(t: Table, limit: nat, rank: nat, text: Text, at: nat, s: seq<Stmt>, p: nat,
                                       result: Option<Text>)
    returns (r: seq<Stmt>)
    requires FreeOf(Earlier(t, rank), s) && StmtsReady(t, limit, s) && rank < limit
    requires Leftmost(t, rank, text, p)
    requires At(text, at, PrintStmts(s)) && NoElseAt(text, at + |PrintStmts(s)|)
    requires StmtsOk(s) && Decides(t, rank, text, p, result) && at <= p < at + |PrintStmts(s)|
    ensures Rewrites(text, at, PrintStmts(s), PrintStmts(r), result)
    ensures StmtsOk(r) && StmtsReady(t, limit, r) && Reduce(t, r) == Reduce(t, s)
    decreases s, 0
  {
    var first, others := PrintStmt(s[0]), PrintStmts(s[1..]);
    AtParts(text, at, first, others);
    if p < at + |first| {
      NoElseBetween(text, at, s);
      var x := FoldInStmt(t, limit, rank, text, at, s[0], p, result);
      r := [x] + s[1..];
      Cons(t, limit, x, s[1..]);
      EmbedFirst(text, at, first, others, PrintStmt(x), result);
    } else {
      var rest := FoldInStmts(t, limit, rank, text, at + |first|, s[1..], p, result);
      r := [s[0]] + rest;
      Cons(t, limit, s[0], rest);
      EmbedLast(text, at, first, others, PrintStmts(rest), result);
    }
  }

  lemma {:induction false} FoldInBraced(t: Table, limit: nat, rank: nat, text: Text, at: nat, s: seq<Stmt>, p: nat,
                                       result: Option<Text>)
    returns (r: seq<Stmt>)
    requires FreeOf(Earlier(t, rank), s) && StmtsReady(t, limit, s) && rank < limit
    requires Leftmost(t, rank, text, p)
    requires At(text, at, Braced(s)) && StmtsOk(s)
    requires Decides(t, rank, text, p, result) && at <= p < at + |Braced(s)|
    ensures Rewrites(text, at, Braced(s), Braced(r), result)
    ensures StmtsOk(r) && StmtsReady(t, limit, r) && Reduce(t, r) == Reduce(t, s)
    decreases s, 1
  {
    AtThree(text, at, [LBrace], PrintStmts(s), [RBrace]);
    AtFirst(text, at, [LBrace]);
    AtFirst(text, at + 1 + |PrintStmts(s)|, [RBrace]);
    r := FoldInStmts(t, limit, rank, text, at + 1, s, p, result);
    Embed(text, at, [LBrace], PrintStmts(s), [RBrace], PrintStmts(r), result);
  }

  lemma {:induction false} FoldInStmt(t: Table, limit: nat, rank: nat, text: Text, at: nat, s: Stmt,
                                      p: nat, result: Option<Text>)
    returns (r: Stmt)
    requires StmtFreeOf(Earlier(t, rank), s) && StmtReady(t, limit, s) && rank < limit
    requires Leftmost(t, rank, text, p)
    requires At(text, at, PrintStmt(s)) && NoElseAt(text, at + |PrintStmt(s)|)
    requires StmtOk(s) && Decides(t, rank, text, p, result) && at <= p < at + |PrintStmt(s)|
    ensures Rewrites(text, at, PrintStmt(s), PrintStmt(r), result)
    ensures StmtOk(r) && StmtReady(t, limit, r) && ReduceStmt(t, r) == ReduceStmt(t, s)
    decreases s, 0
  {
    AtFirst(text, at, PrintStmt(s));
    match s
    case Atom(_) =>
      assert false;
    case Block(body) =>
      var b := FoldInBraced(t, limit, rank, text, at, body, p, result);
      r := Block(b);
    case Loop(id, body) =>
      AtParts(text, at, [Other(id)], Braced(body));
      var b := FoldInBraced(t, limit, rank, text, at + 1, body, p, result);
      r := Loop(id, b);
      EmbedLast(text, at, [Other(id)], Braced(body), Braced(b), result);
    case Branch(c) =>
      if p == at {
        assert BranchAt(t, rank, text, p, c);
        SelectedOk(t, limit, c);
        SelectedReduces(t, c);
        r := Block(Selected(c, t[c.cond.name].value));
      } else {
        var d := FoldInChain(t, limit, rank, text, at, c, p, result);
        r := Branch(d);
      }
  }

  /** Two chains differ only where listed branches are decided. */
  ghost predicate SameChain(t: Table, limit: nat, c: Chain, d: Chain) {
    && ChainOk(d) && ChainReady(t, limit, d)
    && d.cond == c.cond && Reduce(t, d.body) == Reduce(t, c.body) && SameRest(t, c.rest, d.rest)
  }

  ghost predicate SameAlt(t: Table, limit: nat, a: Alt, b: Alt) {
    AltOk(b) && AltReady(t, limit, b) && SameRest(t, a, b)
  }

  ghost predicate SameRest(t: Table, a: Alt, b: Alt) {
    && ReduceAlt(t, b) == ReduceAlt(t, a) && ReduceAltStmts(t, b) == ReduceAltStmts(t, a)
    && (forall rank: nat :: PlainBy(t, a, rank) ==> PlainBy(t, b, rank))
  }

  lemma {:induction false} FoldInChain(t: Table, limit: nat, rank: nat, text: Text, at: nat, c: Chain,
                                       p: nat, result: Option<Text>)
    returns (r: Chain)
    requires ChainFreeOf(Earlier(t, rank), c) && ChainReady(t, limit, c) && rank < limit
    requires Leftmost(t, rank, text, p)
    requires At(text, at, PrintChain(c)) && NoElseAt(text, at + |PrintChain(c)|)
    requires ChainOk(c) && Decides(t, rank, text, p, result) && at < p < at + |PrintChain(c)|
    ensures Rewrites(text, at, PrintChain(c), PrintChain(r), result)
    ensures SameChain(t, limit, c, r)
    decreases c, 0, 1
  {
    NotInFront(text, at, c, p);
    if p < at + |Front(c.cond)| + |Braced(c.body)| {
      r := FoldInBody(t, limit, rank, text, at, c, p, result);
    } else {
      r := FoldInRest(t, limit, rank, text, at, c, p, result);
    }
  }

  /** A branch around the leftmost head of a rank is on no flag up to that rank. */
  lemma {:induction false} NotTriedBefore(t: Table, limit: nat, rank: nat, text: Text, at: nat, c: Chain, p: nat,
                                          selects: bool)
    requires At(text, at, PrintChain(c)) && CondOk(c.cond) && ChainFreeOf(Earlier(t, rank), c)
    requires Leftmost(t, rank, text, p) && at < p && rank < limit
    ensures rank < Limit(t, limit, c.cond, selects)
  {
    BranchHeadIs(text, at, c);
    assert !HeadOfRank(t, rank, text, at);
  }

  lemma {:induction false} FoldInBody(t: Table, limit: nat, rank: nat, text: Text, at: nat, c: Chain,
                                      p: nat, result: Option<Text>)
    returns (r: Chain)
    requires ChainFreeOf(Earlier(t, rank), c) && ChainReady(t, limit, c) && rank < limit
    requires Leftmost(t, rank, text, p)
    requires At(text, at, PrintChain(c)) && ChainOk(c) && Decides(t, rank, text, p, result)
    requires at + |Front(c.cond)| <= p < at + |Front(c.cond)| + |Braced(c.body)|
    ensures Rewrites(text, at, PrintChain(c), PrintChain(r), result)
    ensures SameChain(t, limit, c, r)
    decreases c, 0, 0
  {
    AtThree(text, at, Front(c.cond), Braced(c.body), PrintAlt(c.rest));
    NotTriedBefore(t, limit, rank, text, at, c, p, true);
    var b := FoldInBraced(t, Limit(t, limit, c.cond, true), rank, text, at + |Front(c.cond)|, c.body, p, result);
    Embed(text, at, Front(c.cond), Braced(c.body), PrintAlt(c.rest), Braced(b), result);
    r := c.(body := b);
  }

  lemma {:induction false} FoldInRest(t: Table, limit: nat, rank: nat, text: Text, at: nat, c: Chain,
                                      p: nat, result: Option<Text>)
    returns (r: Chain)
    requires ChainFreeOf(Earlier(t, rank), c) && ChainReady(t, limit, c) && rank < limit
    requires Leftmost(t, rank, text, p)
    requires At(text, at, PrintChain(c)) && NoElseAt(text, at + |PrintChain(c)|)
    requires ChainOk(c) && Decides(t, rank, text, p, result)
    requires at + |Front(c.cond)| + |Braced(c.body)| <= p < at + |PrintChain(c)|
    ensures Rewrites(text, at, PrintChain(c), PrintChain(r), result)
    ensures SameChain(t, limit, c, r)
    decreases c, 0, 0
  {
    AtThree(text, at, Front(c.cond), Braced(c.body), PrintAlt(c.rest));
    NotTriedBefore(t, limit, rank, text, at, c, p, false);
    var behind := at + |Front(c.cond)| + |Braced(c.body)|;
    var a := FoldInAlt(t, Limit(t, limit, c.cond, false), rank, text, behind, c.rest, p, result);
    EmbedLast(text, at, Front(c.cond) + Braced(c.body), PrintAlt(c.rest), PrintAlt(a), result);
    r := c.(rest := a);
  }

  lemma {:induction false} NotInFront(text: Text, at: nat, c: Chain, p: nat)
    requires At(text, at, PrintChain(c)) && CondOk(c.cond)
    ensures at + |Front(c.cond)| <= |text|
    ensures at < p < at + |Front(c.cond)| ==> text[p] != If
  {
    AtThree(text, at, Front(c.cond), Braced(c.body), PrintAlt(c.rest));
    FrontIsPlain(c.cond);
    if at < p < at + |Front(c.cond)| {
      assert text[at + (p - at)] == Front(c.cond)[p - at];
    }
  }

  lemma {:induction false} FoldInAlt(t: Table, limit: nat, rank: nat, text: Text, at: nat, a: Alt,
                                     p: nat, result: Option<Text>)
    returns (r: Alt)
    requires AltFreeOf(Earlier(t, rank), a) && AltReady(t, limit, a) && rank < limit
    requires Leftmost(t, rank, text, p)
    requires At(text, at, PrintAlt(a)) && NoElseAt(text, at + |PrintAlt(a)|)
    requires AltOk(a) && Decides(t, rank, text, p, result) && at <= p < at + |PrintAlt(a)|
    ensures Rewrites(text, at, PrintAlt(a), PrintAlt(r), result)
    ensures SameAlt(t, limit, a, r)
    decreases a, 0
  {
    AtFirst(text, at, PrintAlt(a));
    if a.ElseBlock? {
      AtParts(text, at, [Else], Braced(a.body));
      var b := FoldInBraced(t, limit, rank, text, at + 1, a.body, p, result);
      r := ElseBlock(b);
      EmbedLast(text, at, [Else], Braced(a.body), Braced(b), result);
    } else {
      r := FoldInElseIf(t, limit, rank, text, at, a.chain, p, result);
    }
  }

  lemma {:induction false} FoldInElseIf(t: Table, limit: nat, rank: nat, text: Text, at: nat, c: Chain, p: nat,
                                       result: Option<Text>)
    returns (r: Alt)
    requires ChainFreeOf(Earlier(t, rank), c) && ChainReady(t, limit, c) && rank < limit
    requires Leftmost(t, rank, text, p)
    requires At(text, at, [Else] + PrintChain(c)) && NoElseAt(text, at + 1 + |PrintChain(c)|)
    requires ChainOk(c) && Decides(t, rank, text, p, result) && at < p < at + 1 + |PrintChain(c)|
    ensures Rewrites(text, at, [Else] + PrintChain(c), PrintAlt(r), result)
    ensures SameAlt(t, limit, ElseIf(c), r)
    decreases c, 1
  {
    assert At(text, at + 1, PrintChain(c)) by {
      AtParts(text, at, [Else], PrintChain(c));
    }
    if p == at + 1 {
      r := DecideLink(t, limit, rank, text, at, c, result);
    } else {
      var d := FoldInChain(t, limit, rank, text, at + 1, c, p, result);
      r := ElseIf(d);
      SameLink(t, limit, c, d);
      EmbedLast(text, at, [Else], PrintChain(c), PrintChain(d), result);
    }
  }

  lemma {:induction false} SameLink(t: Table, limit: nat, c: Chain, d: Chain)
    requires SameChain(t, limit, c, d)
    ensures SameAlt(t, limit, ElseIf(c), ElseIf(d))
    ensures PrintAlt(ElseIf(d)) == [Else] + PrintChain(d)
  {
  }

  /** A link that is decided becomes an `else` block. */
  lemma {:induction false} DecideLink(t: Table, limit: nat, rank: nat, text: Text, at: nat, c: Chain,
                                      result: Option<Text>)
    returns (r: Alt)
    requires ChainFreeOf(Earlier(t, rank), c) && ChainReady(t, limit, c) && rank < limit && ChainOk(c)
    requires At(text, at, [Else] + PrintChain(c)) && NoElseAt(text, at + 1 + |PrintChain(c)|)
    requires Decides(t, rank, text, at + 1, result)
    ensures Rewrites(text, at, [Else] + PrintChain(c), PrintAlt(r), result)
    ensures SameAlt(t, limit, ElseIf(c), r)
  {
    AtParts(text, at, [Else], PrintChain(c));
    assert BranchAt(t, rank, text, at + 1, c);
    SelectedOk(t, limit, c);
    SelectedReduces(t, c);
    r := ElseBlock(Selected(c, t[c.cond.name].value));
    EmbedLast(text, at, [Else], PrintChain(c), Braced(r.body), result);
  }

  // ----- What is left when no head is found

  /** Where no listed head is found, no listed branch is printed. */
  lemma {:induction false} NothingFound(t: Table, text: Text, at: nat, s: seq<Stmt>)
    requires At(text, at, PrintStmts(s)) && StmtsOk(s)
    requires NoHeads(t, text)
    ensures FreeOf(t, s)
    decreases s, 0
  {
    if s != [] {
      AtParts(text, at, PrintStmt(s[0]), PrintStmts(s[1..]));
      NothingFoundStmt(t, text, at, s[0]);
      NothingFound(t, text, at + |PrintStmt(s[0])|, s[1..]);
    }
  }

  lemma {:induction false} NothingFoundBraced(t: Table, text: Text, at: nat, s: seq<Stmt>)
    requires At(text, at, Braced(s)) && StmtsOk(s)
    requires NoHeads(t, text)
    ensures FreeOf(t, s)
    decreases s, 1
  {
    AtThree(text, at, [LBrace], PrintStmts(s), [RBrace]);
    NothingFound(t, text, at + 1, s);
  }

  lemma {:induction false} NothingFoundStmt(t: Table, text: Text, at: nat, s: Stmt)
    requires At(text, at, PrintStmt(s)) && StmtOk(s)
    requires NoHeads(t, text)
    ensures StmtFreeOf(t, s)
    decreases s, 0
  {
    match s
    case Atom(_) =>
    case Block(body) => NothingFoundBraced(t, text, at, body);
    case Loop(id, body) =>
      AtParts(text, at, [Other(id)], Braced(body));
      NothingFoundBraced(t, text, at + 1, body);
    case Branch(c) => NothingFoundChain(t, text, at, c);
  }

  lemma {:induction false} NothingFoundChain(t: Table, text: Text, at: nat, c: Chain)
    requires At(text, at, PrintChain(c)) && ChainOk(c)
    requires NoHeads(t, text)
    ensures ChainFreeOf(t, c)
    decreases c, 0
  {
    AtThree(text, at, Front(c.cond), Braced(c.body), PrintAlt(c.rest));
    BranchHeadIs(text, at, c);
    assert !ListedHead(t, text, at);
    NothingFoundBraced(t, text, at + |Front(c.cond)|, c.body);
    NothingFoundAlt(t, text, at + |Front(c.cond)| + |Braced(c.body)|, c.rest);
  }

  lemma {:induction false} NothingFoundAlt(t: Table, text: Text, at: nat, a: Alt)
    requires At(text, at, PrintAlt(a)) && AltOk(a)
    requires NoHeads(t, text)
    ensures AltFreeOf(t, a)
    decreases a, 0
  {
    match a
    case NoElse =>
    case ElseBlock(body) =>
      AtParts(text, at, [Else], Braced(body));
      NothingFoundBraced(t, text, at + 1, body);
    case ElseIf(c) =>
      AtParts(text, at, [Else], PrintChain(c));
      NothingFoundChain(t, text, at + 1, c);
  }

  /** Every fold makes the text shorter, printed program or not. */
  lemma {:induction false} FoldShrinks(text: Text, p: nat, head: Head, value: bool)
    requires SimpleHead(text, p) == Some(head) && FoldAt(text, p, head, value).Some?
    ensures |FoldAt(text, p, head, value).value| < |text|
  {
    var close := CloseFrom(text, head.open + 1, 1).value;
    var other := ElsePart(text, close + 1).value;
    var selected := if value != head.negated then text[head.open + 1..close] else other.0;
    assert |selected| < other.1 - head.open;
  }

  // ----- The loops of the source

  method MatchingBrace(text: Text, opening: nat) returns (r: Option<nat>)
    ensures r == CloseFrom(text, opening + 1, 1)
  {
    var depth, cursor := 1, opening + 1;
    while cursor < |text| && depth > 0
      invariant 0 <= depth && opening < cursor
      invariant CloseFrom(text, opening + 1, 1) ==
        if depth > 0 then CloseFrom(text, cursor, depth) else Some(cursor - 1)
      decreases |text| - cursor
    {
      if text[cursor] == LBrace {
        depth := depth + 1;
      } else if text[cursor] == RBrace {
        depth := depth - 1;
      }
      cursor := cursor + 1;
    }
    r := if depth > 0 then None else Some(cursor - 1);
  }

  method WalkChain(text: Text, start: nat) returns (r: Option<nat>)
    ensures r == ChainEnd(text, start)
  {
    var cursor := start;
    while true
      invariant ChainEnd(text, start) == ChainEnd(text, cursor)
      decreases |text| - cursor
    {
      var open := FindBrace(text, cursor);
      if open.None? {
        return None;
      }
      var close := MatchingBrace(text, open.value);
      if close.None? {
        return None;
      }
      var next := close.value + 1;
      if ElseIfAt(text, next) {
        cursor := next + 1;
      } else if ElseBraceAt(text, next) {
        var last := MatchingBrace(text, next + 1);
        return if last.None? then None else Some(last.value + 1);
      } else {
        return Some(next);
      }
    }
  }

  method ReadElse(text: Text, after: nat) returns (r: Option<(Text, nat)>)
    requires after <= |text|
    ensures r == ElsePart(text, after)
  {
    if ElseBraceAt(text, after) {
      var close := MatchingBrace(text, after + 1);
      r := if close.None? then None else Some((text[after + 2..close.value], close.value + 1));
    } else if ElseIfAt(text, after) {
      var end := WalkChain(text, after + 1);
      r := if end.None? then None else Some((text[after + 1..end.value], end.value));
    } else {
      r := Some(([], after));
    }
  }

  method FoldOne(text: Text, p: nat, head: Head, value: bool) returns (r: Option<Text>)
    requires SimpleHead(text, p) == Some(head)
    ensures r == FoldAt(text, p, head, value)
  {
    var close := MatchingBrace(text, head.open);
    if close.None? {
      return None;
    }
    var other := ReadElse(text, close.value + 1);
    if other.None? {
      return None;
    }
    var (elseBody, end) := other.value;
    var selected := if value != head.negated then text[head.open + 1..close.value] else elseBody;
    r := Some(text[..p] + [LBrace] + selected + [RBrace] + text[end..]);
  }

  /** The leftmost head on a name, from a position on. */
  function FirstHead(text: Text, from: nat, name: string): (r: Option<nat>)
    ensures r.Some? ==> from <= r.value < |text|
    ensures r.Some? ==> SimpleHead(text, r.value).Some? && SimpleHead(text, r.value).value.name == name
    ensures forall p: nat :: from <= p && (r.None? || p < r.value) && SimpleHead(text, p).Some? ==>
      SimpleHead(text, p).value.name != name
    decreases if from < |text| then |text| - from else 0
  {
    if from >= |text| then None
    else
      var head := SimpleHead(text, from);
      if head.Some? && head.value.name == name then Some(from) else FirstHead(text, from + 1, name)
  }

  predicate DistinctNames(values: seq<(string, bool)>) {
    forall i, j :: 0 <= i < j < |values| ==> values[i].0 != values[j].0
  }

  /** The rank of a flag is its place in the dictionary. */
  predicate RanksIn(t: Table, values: seq<(string, bool)>) {
    forall name :: name in t ==> t[name].rank < |values| && values[t[name].rank].0 == name
  }

  /** The flags of a dictionary, ranked in its own order. */
  function TableOf(values: seq<(string, bool)>): (t: Table)
    ensures RanksIn(t, values)
    ensures forall i :: 0 <= i < |values| ==> values[i].0 in t
  {
    if values == [] then map[]
    else
      var k := |values| - 1;
      TableOf(values[..k])[values[k].0 := Flag(values[k].1, k)]
  }

  lemma {:induction false} TableValue(values: seq<(string, bool)>, i: nat)
    requires DistinctNames(values) && i < |values|
    ensures values[i].0 in TableOf(values) && TableOf(values)[values[i].0] == Flag(values[i].1, i)
  {
    if i < |values| - 1 {
      TableValue(values[..|values| - 1], i);
    }
  }

  /** The program after folding: no branch on a listed flag is left, and up to the braces of blocks
      it is the original program with every listed branch decided. */
  ghost predicate FoldedFrom(t: Table, program: seq<Stmt>, folded: seq<Stmt>) {
    && StmtsOk(folded) && FreeOf(t, folded)
    && Reduce(map[], folded) == Reduce(t, program)
  }

  /** Folding under the dictionary handles the program: the links behind a flag are plain by the time it is
      tried, unless the branch is discarded before. */
  ghost predicate Handles(values: seq<(string, bool)>, program: seq<Stmt>) {
    StmtsOk(program) && StmtsReady(TableOf(values), |values|, program)
  }

  /** Whether a program is handled depends on the table's order: with B before A the link is folded first, and
      by the time A is tried it has become an `else` block. */
  lemma {:induction false} OrderDecides(a: bool, b: bool)
    ensures Handles([("B", b), ("A", a)], [Branch(ConstexprLink())])
    ensures !Handles([("A", a), ("B", b)], [Branch(ConstexprLink())])
  {
    LinkIsReady([("B", b), ("A", a)], 1, 0);
    LinkIsReady([("A", a), ("B", b)], 0, 1);
  }

  lemma {:induction false} LinkIsReady(values: seq<(string, bool)>, i: nat, j: nat)
    requires DistinctNames(values) && i < |values| && j < |values| && values[i].0 == "A" && values[j].0 == "B"
    ensures Handles(values, [Branch(ConstexprLink())]) <==> j < i
  {
    TableValue(values, i);
    TableValue(values, j);
    OneStmt(Branch(ConstexprLink()));
    OneReady(TableOf(values), |values|, Branch(ConstexprLink()));
  }

  /** A branch that discards its body exempts the body, if its flag is tried no later than the one inside. */
  lemma {:induction false} DiscardedBodyIsHandled(a: bool)
    ensures Handles([("E", false), ("A", a)],
                    [Branch(Chain(Simple(true, false, "E"), [Branch(ConstexprLink())], NoElse))])
  {
    var values, inner := [("E", false), ("A", a)], Branch(ConstexprLink());
    var outer := Branch(Chain(Simple(true, false, "E"), [inner], NoElse));
    TableValue(values, 0);
    TableValue(values, 1);
    OneStmt(inner);
    OneReady(TableOf(values), 0, inner);
    OneStmt(outer);
    OneReady(TableOf(values), 2, outer);
  }

  /** Once no head is on the flags of a rank either, none is on the flags below the next. */
  lemma {:induction false} NoHeadOf(t: Table, values: seq<(string, bool)>, i: nat, text: Text)
    requires RanksIn(t, values) && i < |values| && NoHeads(Earlier(t, i), text)
    requires forall p: nat :: SimpleHead(text, p).Some? ==> SimpleHead(text, p).value.name != values[i].0
    ensures NoHeads(Earlier(t, i + 1), text)
  {
    var before, after := Earlier(t, i), Earlier(t, i + 1);
    forall p: nat
      ensures !ListedHead(after, text, p)
    {
      assert !ListedHead(before, text, p);
    }
  }

  // ----- The whole routine as a function

  /** The first flag from a place of the dictionary on that has a head is folded at its leftmost head; None
      if no flag has one. */
  function FoldNext(text: Text, values: seq<(string, bool)>, i: nat): (r: Result<Option<Text>>)
    requires i <= |values|
    ensures r.Ok? && r.value.Some? ==> |r.value.value| < |text|
    decreases |values| - i
  {
    if i == |values| then Ok(None)
    else
      match FirstHead(text, 0, values[i].0)
      case None => FoldNext(text, values, i + 1)
      case Some(p) =>
        var head := SimpleHead(text, p).value;
        match FoldAt(text, p, head, values[i].1)
        case None => Err("unbalanced or malformed branch")
        case Some(folded) =>
          FoldShrinks(text, p, head, values[i].1);
          Ok(Some(folded))
  }

  function FoldAll(text: Text, values: seq<(string, bool)>): (r: Result<Text>)
    ensures r.Ok? ==> |r.value| <= |text|
    decreases |text|
  {
    match FoldNext(text, values, 0)
    case Err(error) => Err(error)
    case Ok(None) => Ok(text)
    case Ok(Some(shorter)) => FoldAll(shorter, values)
  }

  lemma {:induction false} EarlierThanAll(t: Table, values: seq<(string, bool)>)
    requires RanksIn(t, values)
    ensures Earlier(t, |values|) == t
  {
  }

  lemma {:induction false} NextIsNone(text: Text, values: seq<(string, bool)>, i: nat)
    requires i < |values| && FoldNext(text, values, i) == Ok(None)
    ensures forall p: nat :: SimpleHead(text, p).Some? ==> SimpleHead(text, p).value.name != values[i].0
    ensures FoldNext(text, values, i + 1) == Ok(None)
  {
    assert FirstHead(text, 0, values[i].0) == None;
  }

  lemma {:induction false} NothingNext(t: Table, text: Text, values: seq<(string, bool)>, i: nat)
    requires RanksIn(t, values) && i <= |values| && NoHeads(Earlier(t, i), text)
    requires FoldNext(text, values, i) == Ok(None)
    ensures NoHeads(t, text)
    decreases |values| - i
  {
    if i == |values| {
      EarlierThanAll(t, values);
    } else {
      NextIsNone(text, values, i);
      NoHeadOf(t, values, i, text);
      NothingNext(t, text, values, i + 1);
    }
  }

  /** What folding returns has no head on a listed flag. */
  lemma {:induction false} NothingLeft(text: Text, values: seq<(string, bool)>)
    requires DistinctNames(values) && FoldAll(text, values).Ok?
    ensures NoHeads(TableOf(values), FoldAll(text, values).value)
    decreases |text|
  {
    var next := FoldNext(text, values, 0).value;
    if next.None? {
      NothingNext(TableOf(values), text, values, 0);
    } else {
      NothingLeft(next.value, values);
    }
  }

  /** The text prints a program that folding handles and that reduces as the original does. */
  ghost predicate Stage(values: seq<(string, bool)>, text: Text, current: seq<Stmt>, program: seq<Stmt>) {
    && text == PrintStmts(current) && Handles(values, current)
    && Reduce(TableOf(values), current) == Reduce(TableOf(values), program)
  }

  lemma {:induction false} LeftmostOf(values: seq<(string, bool)>, text: Text, i: nat, p: nat)
    requires DistinctNames(values) && i < |values| && FirstHead(text, 0, values[i].0) == Some(p)
    ensures HeadOfRank(TableOf(values), i, text, p) && Leftmost(TableOf(values), i, text, p)
    ensures TableOf(values)[values[i].0].value == values[i].1
  {
    TableValue(values, i);
  }

  /** A fold at the first head of the first flag that has one keeps the stage. */
  lemma {:induction false} FoldKeepsStage(text: Text, values: seq<(string, bool)>, i: nat, current: seq<Stmt>, p: nat)
    returns (folded: seq<Stmt>)
    requires DistinctNames(values) && i < |values| && NoHeads(Earlier(TableOf(values), i), text)
    requires text == PrintStmts(current) && Handles(values, current)
    requires FirstHead(text, 0, values[i].0) == Some(p)
    ensures FoldAt(text, p, SimpleHead(text, p).value, values[i].1) == Some(PrintStmts(folded))
    ensures Stage(values, PrintStmts(folded), folded, current)
  {
    LeftmostOf(values, text, i, p);
    var result := FoldAt(text, p, SimpleHead(text, p).value, values[i].1);
    folded := FoldProgram(TableOf(values), |values|, i, text, current, p, result);
  }

  lemma {:induction false} FoldNextAt(text: Text, values: seq<(string, bool)>, i: nat, p: nat, folded: Text)
    requires i < |values| && FirstHead(text, 0, values[i].0) == Some(p)
    requires FoldAt(text, p, SimpleHead(text, p).value, values[i].1) == Some(folded)
    ensures FoldNext(text, values, i) == Ok(Some(folded))
  {
  }

  /** One fold keeps the stage. */
  lemma {:induction false} NextKeepsStage(text: Text, values: seq<(string, bool)>, i: nat, current: seq<Stmt>)
    returns (folded: seq<Stmt>)
    requires DistinctNames(values) && i <= |values| && NoHeads(Earlier(TableOf(values), i), text)
    requires text == PrintStmts(current) && Handles(values, current)
    ensures FoldNext(text, values, i).Ok?
    ensures var next := FoldNext(text, values, i).value;
            next.Some? ==> Stage(values, next.value, folded, current)
    decreases |values| - i
  {
    folded := current;
    if i < |values| {
      var found := FirstHead(text, 0, values[i].0);
      if found.None? {
        NoHeadOf(TableOf(values), values, i, text);
        folded := NextKeepsStage(text, values, i + 1, current);
      } else {
        folded := FoldKeepsStage(text, values, i, current, found.value);
        FoldNextAt(text, values, i, found.value, PrintStmts(folded));
      }
    }
  }

  /** MAIN RESULT.  The printed form of a program that folding handles becomes the printed form of the program
      folded from it. */
  lemma {:induction false} FoldAllFolds(text: Text, values: seq<(string, bool)>, current: seq<Stmt>)
    returns (folded: seq<Stmt>)
    requires DistinctNames(values) && text == PrintStmts(current) && Handles(values, current)
    ensures FoldAll(text, values) == Ok(PrintStmts(folded)) && FoldedFrom(TableOf(values), current, folded)
    decreases |text|
  {
    var next := NextKeepsStage(text, values, 0, current);
    if FoldNext(text, values, 0) == Ok(None) {
      folded := current;
      NothingNext(TableOf(values), text, values, 0);
      NothingFound(TableOf(values), text, 0, folded);
      FreeIsReduced(TableOf(values), folded);
    } else {
      folded := FoldAllFolds(FoldNext(text, values, 0).value.value, values, next);
    }
  }

  /** The text in which folding A leaves the link on B dangling: `{} else if constexpr (B) {}`. */
  function Dangling(): Text {
    [LBrace, RBrace, Else, If, Constexpr, LPar, Name("B"), RPar, LBrace, RBrace]
  }

  lemma {:induction false} TailOfLinkB()
    ensures Tail(ConstexprLink().rest) == Dangling()[2..]
  {
    var link := ConstexprLink().rest.chain;
    assert Front(link.cond) == [If, Constexpr, LPar, Name("B"), RPar];
    assert PrintChain(link) == [If, Constexpr, LPar, Name("B"), RPar] + [LBrace, RBrace] + [];
    assert Dangling()[2..] == [Else] + PrintChain(link);
  }

  lemma {:induction false} NothingSelected(value: bool)
    ensures Braced(Selected(Seen(ConstexprLink()), value)) + Dangling()[2..] == Dangling()
  {
    assert Selected(Seen(ConstexprLink()), value) == [];
    assert Braced([]) == [LBrace, RBrace];
  }

  lemma {:induction false} FoldToDangling(value: bool)
    ensures var text := PrintChain(ConstexprLink());
      && FirstHead(text, 0, "A") == Some(0)
      && FoldAt(text, 0, SimpleHead(text, 0).value, value) == Some(Dangling())
  {
    var c := ConstexprLink();
    var text := PrintChain(c);
    assert text[0..|text|] == text;
    FoldOfText(text, c, value);
    BranchHeadIs(text, 0, c);
    TailOfLinkB();
    NothingSelected(value);
  }

  lemma {:induction false} NoHeadOnA()
    ensures FirstHead(Dangling(), 0, "A") == None
  {
    forall p: nat | SimpleHead(Dangling(), p).Some?
      ensures SimpleHead(Dangling(), p).value.name == "B"
    {
      assert p == 3;
    }
  }

  /** A witness for the whole routine: with only A listed it returns that text, which is no program. */
  lemma {:induction false} RoutineDangles(value: bool)
    ensures FoldAll(PrintChain(ConstexprLink()), [("A", value)]) == Ok(Dangling()) && !IsProgram(Dangling())
  {
    var text, values := PrintChain(ConstexprLink()), [("A", value)];
    FoldToDangling(value);
    FoldDangles(value);
    assert FoldNext(text, values, 0) == Ok(Some(Dangling()));
    NoHeadOnA();
    assert FoldNext(Dangling(), values, 0) == FoldNext(Dangling(), values, 1) == Ok(None);
  }

  // ----- The loops of the routine

  /** One turn of the outer loop. */
  method FoldFirst(text: Text, values: seq<(string, bool)>) returns (r: Result<Option<Text>>)
    ensures r == FoldNext(text, values, 0)
  {
    for i := 0 to |values|
      invariant FoldNext(text, values, 0) == FoldNext(text, values, i)
    {
      var (name, value) := values[i];
      var found := FirstHead(text, 0, name);
      if found.Some? {
        var next := FoldOne(text, found.value, SimpleHead(text, found.value).value, value);
        return if next.None? then Err("unbalanced or malformed branch") else Ok(next);
      }
    }
    r := Ok(None);
  }

  /** MAIN RESULT.  Folding leaves no head on a listed flag in any text, and the printed form of a program
      that it handles becomes the printed form of the program folded from it. */
  method FoldBooleanTemplateBranches(text: Text, values: seq<(string, bool)>, ghost program: seq<Stmt>)
    returns (r: Result<Text>, ghost folded: seq<Stmt>)
    requires DistinctNames(values)
    ensures r == FoldAll(text, values)
    ensures r.Ok? ==> NoHeads(TableOf(values), r.value)
    ensures r.Ok? ==> |r.value| <= |text|
    ensures text == PrintStmts(program) && Handles(values, program) ==>
      r == Ok(PrintStmts(folded)) && FoldedFrom(TableOf(values), program, folded)
  {
    folded := program;
    if text == PrintStmts(program) && Handles(values, program) {
      folded := FoldAllFolds(text, values, program);
    }
    if FoldAll(text, values).Ok? {
      NothingLeft(text, values);
    }
    var current, changed := text, true;
    while changed
      invariant FoldAll(text, values) == if changed then FoldAll(current, values) else Ok(current)
      decreases |current|, changed
    {
      var next := FoldFirst(current, values);
      match next
      case Err(error) => return Err(error), folded;
      case Ok(None) => changed := false;
      case Ok(Some(shorter)) => current := shorter;
    }
    r := Ok(current);
  }

  /** One fold of a whole printed program. */
  lemma {:induction false} FoldProgram(t: Table, limit: nat, rank: nat, text: Text, s: seq<Stmt>, p: nat,
                                       result: Option<Text>)
    returns (r: seq<Stmt>)
    requires text == PrintStmts(s) && StmtsOk(s) && StmtsReady(t, limit, s) && rank < limit
    requires HeadOfRank(t, rank, text, p) && Leftmost(t, rank, text, p) && NoHeads(Earlier(t, rank), text)
    requires result == FoldAt(text, p, SimpleHead(text, p).value, t[SimpleHead(text, p).value.name].value)
    ensures result == Some(PrintStmts(r)) && StmtsOk(r) && StmtsReady(t, limit, r) && Reduce(t, r) == Reduce(t, s)
  {
    FoldDecides(t, rank, text, p, result);
    NothingFound(Earlier(t, rank), text, 0, s);
    r := FoldInStmts(t, limit, rank, text, 0, s, p, result);
    assert text[..0] + PrintStmts(r) + text[|text|..] == PrintStmts(r);
  }

  /** MAIN RESULT.  What folding returns behaves like the original in every environment that agrees
      with the table. */
  lemma {:induction false} FoldingKeepsMeaning<S(!new)>(env: Env<S>, t: Table, program: seq<Stmt>, folded: seq<Stmt>,
                                                 s: S, fuel: nat)
    requires Agrees(env, t) && FoldedFrom(t, program, folded)
    ensures RunStmts(env, folded, s, fuel) == RunStmts(env, program, s, fuel)
  {
    FreeIsReduced(t, folded);
    ReduceKeepsMeaning(env, t, folded, s, fuel);
    ReduceKeepsMeaning(env, t, program, s, fuel);
  }
}

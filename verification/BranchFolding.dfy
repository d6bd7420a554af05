/** fold_boolean_template_branches: discarding branches on listed flags in program text, by brace
    matching, until no such branch is found. */
module BranchFolding {
  import opened Common
  import opened BranchSyntax
  import opened Pieces

  type Text = seq<Token>

  // ----- Reading text

  /** The head of a braced branch on one name: the regular expression of the search, on text with a blank
      between the keywords and the parenthesis. */
  datatype Head = Head(name: string, negated: bool, open: nat)

  function SimpleHead(text: Text, p: nat): Option<Head> {
    if p < |text| && text[p] == If then
      var q := if p + 1 < |text| && text[p + 1] == Constexpr then p + 2 else p + 1;
      if q < |text| && text[q] == LPar then
        var r := if q + 1 < |text| && text[q + 1] == Not then q + 2 else q + 1;
        if r + 2 < |text| && text[r].Name? && text[r + 1] == RPar && text[r + 2] == LBrace
        then Some(Head(text[r].name, r == q + 2, r + 2))
        else None
      else None
    else None
  }

  /** The closing brace for a depth that is open at the cursor. */
  function CloseFrom(text: Text, cursor: nat, depth: nat): (r: Option<nat>)
    requires depth > 0
    ensures r.Some? ==> cursor <= r.value < |text|
    decreases if cursor < |text| then |text| - cursor else 0
  {
    if cursor >= |text| then None
    else
      var now := if text[cursor] == LBrace then depth + 1 else if text[cursor] == RBrace then depth - 1 else depth;
      if now == 0 then Some(cursor) else CloseFrom(text, cursor + 1, now)
  }

  function FindBrace(text: Text, cursor: nat): (r: Option<nat>)
    ensures r.Some? ==> cursor <= r.value < |text|
    decreases if cursor < |text| then |text| - cursor else 0
  {
    if cursor >= |text| then None else if text[cursor] == LBrace then Some(cursor) else FindBrace(text, cursor + 1)
  }

  predicate ElseBraceAt(text: Text, p: nat) {
    p + 1 < |text| && text[p] == Else && text[p + 1] == LBrace
  }

  predicate ElseIfAt(text: Text, p: nat) {
    p + 2 < |text| && text[p] == Else && text[p + 1] == If && text[p + 2] == LPar
  }

  /** Behind the last link of a chain whose first link stands at the cursor. */
  function ChainEnd(text: Text, cursor: nat): (r: Option<nat>)
    ensures r.Some? ==> cursor < r.value <= |text|
    decreases if cursor < |text| then |text| - cursor else 0, 1
  {
    match FindBrace(text, cursor)
    case None => None
    case Some(open) =>
      match CloseFrom(text, open + 1, 1)
      case None => None
      case Some(close) => RestEnd(text, close + 1)
  }

  /** Behind the last link of a chain of which a link has just been closed. */
  function RestEnd(text: Text, next: nat): (r: Option<nat>)
    requires next <= |text|
    ensures r.Some? ==> next <= r.value <= |text|
    ensures r.Some? && ElseIfAt(text, next) ==> next + 1 < r.value
    ensures r.Some? && ElseBraceAt(text, next) ==> next + 2 < r.value
    decreases |text| - next, 2
  {
    if ElseIfAt(text, next) then ChainEnd(text, next + 1)
    else if ElseBraceAt(text, next) then
      (match CloseFrom(text, next + 2, 1) case None => None case Some(end) => Some(end + 1))
    else Some(next)
  }

  /** The else part behind a closed branch: its body, and where the whole branch ends. */
  function ElsePart(text: Text, after: nat): (r: Option<(Text, nat)>)
    requires after <= |text|
    ensures r.Some? ==> after + |r.value.0| <= r.value.1 <= |text|
  {
    match RestEnd(text, after)
    case None => None
    case Some(end) =>
      if ElseBraceAt(text, after) then Some((text[after + 2..end - 1], end))
      else if ElseIfAt(text, after) then Some((text[after + 1..end], end))
      else Some(([], after))
  }

  /** One fold: the branch at p becomes a block around the selected text. */
  function FoldAt(text: Text, p: nat, head: Head, value: bool): Option<Text>
    requires SimpleHead(text, p) == Some(head)
  {
    match CloseFrom(text, head.open + 1, 1)
    case None => None
    case Some(close) =>
      match ElsePart(text, close + 1)
      case None => None
      case Some((elseBody, end)) =>
        var selected := if value != head.negated then text[head.open + 1..close] else elseBody;
        Some(text[..p] + [LBrace] + selected + [RBrace] + text[end..])
  }

  // ----- Printed programs are balanced

  /** A stretch of text leaves the brace depth as it was and never falls below it. */
  ghost predicate Passes(text: Text, p: nat, q: nat) {
    forall depth: nat :: depth > 0 ==> CloseFrom(text, p, depth) == CloseFrom(text, q, depth)
  }

  lemma {:induction false} PassesOn(text: Text, p: nat, q: nat, r: nat)
    requires Passes(text, p, q) && Passes(text, q, r)
    ensures Passes(text, p, r)
  {
  }

  lemma {:induction false} PassPlain(text: Text, p: nat, piece: Text)
    requires At(text, p, piece)
    requires forall i :: 0 <= i < |piece| ==> piece[i] !in {LBrace, RBrace}
    ensures Passes(text, p, p + |piece|)
    decreases |piece|
  {
    if piece != [] {
      assert piece == [piece[0]] + piece[1..];
      AtParts(text, p, [piece[0]], piece[1..]);
      AtFirst(text, p, piece);
      PassPlain(text, p + 1, piece[1..]);
      assert Passes(text, p, p + 1);
    }
  }

  /** One token that is not a brace, in front of a stretch that passes. */
  lemma {:induction false} PassToken(text: Text, p: nat, token: Token, rest: Text)
    requires token !in {LBrace, RBrace} && At(text, p, [token] + rest)
    ensures At(text, p + 1, rest)
    ensures Passes(text, p + 1, p + 1 + |rest|) ==> Passes(text, p, p + 1 + |rest|)
  {
    AtParts(text, p, [token], rest);
    PassPlain(text, p, [token]);
  }

  lemma {:induction false} PassBraced(text: Text, p: nat, s: seq<Stmt>)
    requires At(text, p, Braced(s)) && StmtsOk(s)
    ensures CloseFrom(text, p + 1, 1) == Some(p + |Braced(s)| - 1)
    ensures Passes(text, p, p + |Braced(s)|)
    decreases s, 1
  {
    var end := p + |Braced(s)| - 1;
    AtThree(text, p, [LBrace], PrintStmts(s), [RBrace]);
    PassStmts(text, p + 1, s);
    AtFirst(text, p, [LBrace]);
    AtFirst(text, end, [RBrace]);
    forall depth: nat | depth > 0
      ensures CloseFrom(text, p, depth) == CloseFrom(text, end + 1, depth)
    {
      assert CloseFrom(text, p, depth) == CloseFrom(text, p + 1, depth + 1) == CloseFrom(text, end, depth + 1);
    }
    assert CloseFrom(text, p + 1, 1) == CloseFrom(text, end, 1);
  }

  lemma {:induction false} PassStmts(text: Text, p: nat, s: seq<Stmt>)
    requires At(text, p, PrintStmts(s)) && StmtsOk(s)
    ensures Passes(text, p, p + |PrintStmts(s)|)
    decreases s, 0
  {
    if s != [] {
      AtParts(text, p, PrintStmt(s[0]), PrintStmts(s[1..]));
      PassStmt(text, p, s[0]);
      PassStmts(text, p + |PrintStmt(s[0])|, s[1..]);
    }
  }

  lemma {:induction false} PassStmt(text: Text, p: nat, s: Stmt)
    requires At(text, p, PrintStmt(s)) && StmtOk(s)
    ensures Passes(text, p, p + |PrintStmt(s)|)
    decreases s, 0
  {
    match s
    case Atom(id) =>
      assert [Other(id)] + [] == [Other(id)];
      PassToken(text, p, Other(id), []);
    case Block(body) => PassBraced(text, p, body);
    case Loop(id, body) =>
      PassToken(text, p, Other(id), Braced(body));
      PassBraced(text, p + 1, body);
    case Branch(chain) => PassChain(text, p, chain);
  }

  lemma {:induction false} FrontIsPlain(c: Cond)
    requires CondOk(c)
    ensures forall i :: 0 <= i < |Front(c)| ==> Front(c)[i] !in {LBrace, RBrace} && (i > 0 ==> Front(c)[i] != If)
  {
  }

  lemma {:induction false} PassFront(text: Text, p: nat, c: Cond)
    requires At(text, p, Front(c)) && CondOk(c)
    ensures Passes(text, p, p + |Front(c)|)
  {
    FrontIsPlain(c);
    PassPlain(text, p, Front(c));
  }

  lemma {:induction false} PassChain(text: Text, p: nat, c: Chain)
    requires At(text, p, PrintChain(c)) && ChainOk(c)
    ensures Passes(text, p, p + |PrintChain(c)|)
    decreases c, 0
  {
    var q := p + |Front(c.cond)|;
    var r := q + |Braced(c.body)|;
    AtThree(text, p, Front(c.cond), Braced(c.body), PrintAlt(c.rest));
    PassFront(text, p, c.cond);
    PassBraced(text, q, c.body);
    PassesOn(text, p, q, r);
    PassAlt(text, r, c.rest);
    PassesOn(text, p, r, r + |PrintAlt(c.rest)|);
  }

  lemma {:induction false} PassAlt(text: Text, p: nat, a: Alt)
    requires At(text, p, PrintAlt(a)) && AltOk(a)
    ensures Passes(text, p, p + |PrintAlt(a)|)
    decreases a, 0
  {
    match a
    case NoElse =>
    case ElseBlock(body) =>
      PassToken(text, p, Else, Braced(body));
      PassBraced(text, p + 1, body);
    case ElseIf(chain) =>
      PassToken(text, p, Else, PrintChain(chain));
      PassChain(text, p + 1, chain);
  }

  // ----- What the folder finds at a printed chain

  predicate NoElseAt(text: Text, p: nat) {
    p >= |text| || text[p] != Else
  }

  lemma {:induction false} FindBraceBehind(text: Text, p: nat, piece: Text)
    requires At(text, p, piece) && forall i :: 0 <= i < |piece| ==> piece[i] != LBrace
    requires p + |piece| < |text| && text[p + |piece|] == LBrace
    ensures FindBrace(text, p) == Some(p + |piece|)
    decreases |piece|
  {
    if piece != [] {
      AtFirst(text, p, piece);
      assert piece == [piece[0]] + piece[1..];
      AtParts(text, p, [piece[0]], piece[1..]);
      FindBraceBehind(text, p + 1, piece[1..]);
    }
  }

  /** What stands at the front of a branch. */
  lemma {:induction false} FrontAt(text: Text, p: nat, c: Cond)
    requires At(text, p, Front(c))
    ensures p + |Front(c)| <= |text|
    ensures forall i :: 0 <= i < |Front(c)| ==> text[p + i] == Front(c)[i]
  {
  }

  /** The part of an alternative that the folder walks along: it stops in front of the first
      `else if constexpr`. */
  function Cut(a: Alt): Alt {
    if !a.ElseIf? then a
    else if a.chain.cond.isConstexpr then NoElse
    else ElseIf(a.chain.(rest := Cut(a.chain.rest)))
  }

  /** The printed links that it does not see. */
  function Tail(a: Alt): (r: Text)
    ensures r != [] ==> r[0] == Else
  {
    if !a.ElseIf? then []
    else if a.chain.cond.isConstexpr then [Else] + PrintChain(a.chain)
    else Tail(a.chain.rest)
  }

  lemma {:induction false} CutAndTail(a: Alt)
    ensures PrintAlt(a) == PrintAlt(Cut(a)) + Tail(a)
    ensures PlainLinks(a) <==> Cut(a) == a
    ensures PlainLinks(a) <==> Tail(a) == []
  {
    if a.ElseIf? && !a.chain.cond.isConstexpr {
      CutAndTail(a.chain.rest);
      var c := a.chain;
      assert PrintChain(c) == Front(c.cond) + Braced(c.body) + PrintAlt(Cut(c.rest)) + Tail(c.rest);
      assert [Else] + PrintChain(c) == [Else] + (Front(c.cond) + Braced(c.body) + PrintAlt(Cut(c.rest))) + Tail(c.rest);
    }
  }

  /** The tests that decide how a chain goes on. */
  lemma {:induction false} AltTests(text: Text, p: nat, a: Alt)
    requires At(text, p, PrintAlt(a)) && NoElseAt(text, p + |PrintAlt(a)|)
    ensures ElseBraceAt(text, p) <==> a.ElseBlock?
    ensures ElseIfAt(text, p) <==> a.ElseIf? && !a.chain.cond.isConstexpr
  {
    match a
    case NoElse =>
    case ElseBlock(body) =>
      AtParts(text, p, [Else], Braced(body));
      AtFirst(text, p, PrintAlt(a));
      AtFirst(text, p + 1, Braced(body));
    case ElseIf(c) =>
      AtFirst(text, p, PrintAlt(a));
      ElseIfTest(text, p, c);
  }

  lemma {:induction false} ElseIfTest(text: Text, p: nat, c: Chain)
    requires At(text, p, [Else] + PrintChain(c))
    ensures p + 2 < |text| && text[p + 1] == If && (text[p + 2] == LPar <==> !c.cond.isConstexpr)
  {
    AtParts(text, p, [Else], PrintChain(c));
    AtThree(text, p + 1, Front(c.cond), Braced(c.body), PrintAlt(c.rest));
    FrontAt(text, p + 1, c.cond);
    var front := Front(c.cond);
    assert front[0] == If && front[1] == if c.cond.isConstexpr then Constexpr else LPar;
    assert text[p + 1 + 0] == If && text[p + 1 + 1] == front[1];
  }

  /** One link of a chain: where its body opens and closes. */
  lemma {:induction false} LinkIs(text: Text, p: nat, c: Chain, open: nat, next: nat)
    requires At(text, p, PrintChain(c)) && ChainOk(c)
    requires open == p + |Front(c.cond)| && next == open + |Braced(c.body)|
    ensures FindBrace(text, p) == Some(open) && CloseFrom(text, open + 1, 1) == Some(next - 1)
    ensures At(text, next, PrintAlt(c.rest)) && next + |PrintAlt(c.rest)| == p + |PrintChain(c)|
  {
    AtThree(text, p, Front(c.cond), Braced(c.body), PrintAlt(c.rest));
    AtFirst(text, open, Braced(c.body));
    FrontIsPlain(c.cond);
    FindBraceBehind(text, p, Front(c.cond));
    PassBraced(text, open, c.body);
  }

  lemma {:induction false} ElseIs(text: Text, p: nat, body: seq<Stmt>)
    requires At(text, p, [Else] + Braced(body)) && StmtsOk(body)
    ensures CloseFrom(text, p + 2, 1) == Some(p + |Braced(body)|)
  {
    AtParts(text, p, [Else], Braced(body));
    PassBraced(text, p + 1, body);
  }

  lemma {:induction false} BracedInside(text: Text, p: nat, body: seq<Stmt>)
    requires At(text, p, Braced(body))
    ensures text[p + 1..p + |Braced(body)| - 1] == PrintStmts(body)
  {
    AtThree(text, p, [LBrace], PrintStmts(body), [RBrace]);
    AtSlice(text, p + 1, PrintStmts(body));
  }

  lemma {:induction false} ChainStep(text: Text, p: nat, open: nat, next: nat)
    requires FindBrace(text, p) == Some(open) && next > 0 && CloseFrom(text, open + 1, 1) == Some(next - 1)
    ensures ChainEnd(text, p) == RestEnd(text, next)
  {
  }

  lemma {:induction false} ChainEndIs(text: Text, p: nat, c: Chain)
    requires At(text, p, PrintChain(c)) && ChainOk(c) && NoElseAt(text, p + |PrintChain(c)|)
    ensures ChainEnd(text, p) == Some(p + |PrintChain(c.(rest := Cut(c.rest)))|)
    decreases c, 1
  {
    var open := p + |Front(c.cond)|;
    var next := open + |Braced(c.body)|;
    LinkIs(text, p, c, open, next);
    RestEndIs(text, next, c.rest);
    ChainStep(text, p, open, next);
  }

  lemma {:induction false} RestEndIs(text: Text, p: nat, a: Alt)
    requires At(text, p, PrintAlt(a)) && AltOk(a) && NoElseAt(text, p + |PrintAlt(a)|)
    ensures RestEnd(text, p) == Some(p + |PrintAlt(Cut(a))|)
    decreases a, 1
  {
    AltTests(text, p, a);
    if a.ElseBlock? {
      ElseIs(text, p, a.body);
    } else if a.ElseIf? && !a.chain.cond.isConstexpr {
      LinkEndIs(text, p, a.chain);
    }
  }

  lemma {:induction false} LinkEndIs(text: Text, p: nat, c: Chain)
    requires At(text, p, [Else] + PrintChain(c)) && ChainOk(c) && NoElseAt(text, p + 1 + |PrintChain(c)|)
    requires ElseIfAt(text, p)
    ensures RestEnd(text, p) == Some(p + 1 + |PrintChain(c.(rest := Cut(c.rest)))|)
    decreases c, 2
  {
    AtParts(text, p, [Else], PrintChain(c));
    ChainEndIs(text, p + 1, c);
  }

  lemma {:induction false} OneBranch(c: Chain)
    ensures PrintStmts([Branch(c)]) == PrintChain(c)
  {
    assert [Branch(c)][1..] == [];
  }

  lemma {:induction false} ElsePartIs(text: Text, p: nat, a: Alt)
    requires At(text, p, PrintAlt(a)) && AltOk(a) && NoElseAt(text, p + |PrintAlt(a)|)
    ensures ElsePart(text, p) == Some((PrintStmts(AltStmts(Cut(a))), p + |PrintAlt(Cut(a))|))
  {
    AltTests(text, p, a);
    RestEndIs(text, p, a);
    if a.ElseBlock? {
      ElseSlice(text, p, a.body);
    } else if a.ElseIf? && !a.chain.cond.isConstexpr {
      SeenSlice(text, p, a);
      OneBranch(Cut(a).chain);
    }
  }

  lemma {:induction false} ElseSlice(text: Text, p: nat, body: seq<Stmt>)
    requires At(text, p, [Else] + Braced(body))
    ensures p + 1 + |Braced(body)| <= |text| && text[p + 2..p + |Braced(body)|] == PrintStmts(body)
  {
    AtParts(text, p, [Else], Braced(body));
    BracedInside(text, p + 1, body);
  }

  lemma {:induction false} SeenSlice(text: Text, p: nat, a: Alt)
    requires At(text, p, PrintAlt(a)) && Cut(a).ElseIf?
    ensures p + |PrintAlt(Cut(a))| <= |text|
    ensures text[p + 1..p + |PrintAlt(Cut(a))|] == PrintChain(Cut(a).chain)
  {
    CutAndTail(a);
    AtParts(text, p, PrintAlt(Cut(a)), Tail(a));
    AtParts(text, p, [Else], PrintChain(Cut(a).chain));
    AtSlice(text, p + 1, PrintChain(Cut(a).chain));
  }

  /** The tokens of a condition, by position. */
  lemma {:induction false} FrontTokens(c: Cond, q: nat)
    requires q == if c.isConstexpr then 2 else 1
    ensures |Front(c)| == q + 2 + |CondTokens(c)|
    ensures c.isConstexpr ==> Front(c)[1] == Constexpr
    ensures Front(c)[q] == LPar && Front(c)[|Front(c)| - 1] == RPar
    ensures forall i :: 0 <= i < |CondTokens(c)| ==> Front(c)[q + 1 + i] == CondTokens(c)[i]
  {
  }

  /** The condition stands between its parentheses. */
  lemma {:induction false} CondAt(text: Text, p: nat, c: Cond, q: nat)
    requires q == (if c.isConstexpr then 2 else 1) && At(text, p, Front(c))
    ensures text[p] == If && p + q + 2 + |CondTokens(c)| == p + |Front(c)|
    ensures text[p + 1] == (if c.isConstexpr then Constexpr else LPar)
    ensures text[p + q] == LPar && text[p + q + 1 + |CondTokens(c)|] == RPar
    ensures forall i :: 0 <= i < |CondTokens(c)| ==> text[p + q + 1 + i] == CondTokens(c)[i]
  {
    FrontAt(text, p, c);
    FrontTokens(c, q);
    assert text[p + 0] == Front(c)[0] && text[p + 1] == Front(c)[1] && text[p + q] == Front(c)[q];
    assert text[p + (q + 1 + |CondTokens(c)|)] == Front(c)[q + 1 + |CondTokens(c)|];
    forall i | 0 <= i < |CondTokens(c)|
      ensures text[p + q + 1 + i] == CondTokens(c)[i]
    {
      assert text[p + (q + 1 + i)] == Front(c)[q + 1 + i];
    }
  }

  /** The search recognises exactly the simple conditions. */
  lemma {:induction false} HeadIs(text: Text, p: nat, c: Cond)
    requires At(text, p, Front(c) + [LBrace]) && CondOk(c)
    ensures SimpleHead(text, p) == if c.Simple? then Some(Head(c.name, c.negated, p + |Front(c)|)) else None
  {
    var q := if c.isConstexpr then 2 else 1;
    AtParts(text, p, Front(c), [LBrace]);
    AtFirst(text, p + |Front(c)|, [LBrace]);
    CondAt(text, p, c, q);
    HeadAt(text, p, c, q, p + |Front(c)|);
  }

  /** Reading a condition between its parentheses, with a brace behind. */
  lemma {:induction false} HeadAt(text: Text, p: nat, c: Cond, q: nat, open: nat)
    requires CondOk(c) && q == (if c.isConstexpr then 2 else 1)
    requires p + q + 2 + |CondTokens(c)| == open < |text| && text[open] == LBrace
    requires text[p] == If && text[p + 1] == (if c.isConstexpr then Constexpr else LPar)
    requires text[p + q] == LPar && text[p + q + 1 + |CondTokens(c)|] == RPar
    requires forall i :: 0 <= i < |CondTokens(c)| ==> text[p + q + 1 + i] == CondTokens(c)[i]
    ensures SimpleHead(text, p) == if c.Simple? then Some(Head(c.name, c.negated, open)) else None
  {
    if c.Simple? {
      assert text[p + q + 1 + 0] == CondTokens(c)[0];
      assert c.negated ==> text[p + q + 1 + 1] == CondTokens(c)[1];
    } else {
      var n := |c.tokens|;
      assert n > 0 ==> text[p + q + 1 + 0] == c.tokens[0];
      assert n > 1 ==> text[p + q + 1 + 1] == c.tokens[1];
      assert n > 2 ==> text[p + q + 1 + 2] == c.tokens[2];
      assert n > 3 ==> text[p + q + 1 + 3] == c.tokens[3];
    }
  }
}

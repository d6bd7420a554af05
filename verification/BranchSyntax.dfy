/** Programs with if / else-if / else chains: their printed form, their meaning, and what is left of
    them when every branch on a listed flag is decided. */
module BranchSyntax {
  import opened Common

  /** Source text as tokens; blanks between tokens are not represented. */
  datatype Token =
    | If | Constexpr | Else | Not | LPar | RPar | LBrace | RBrace
    | Name(name: string)
    | Other(id: nat)

  /** A simple condition is one name, possibly negated; any other condition is opaque. */
  datatype Cond =
    | Simple(isConstexpr: bool, negated: bool, name: string)
    | Complex(isConstexpr: bool, id: nat, tokens: seq<Token>)

  datatype Stmt =
    | Atom(id: nat)
    | Block(body: seq<Stmt>)
    | Loop(id: nat, body: seq<Stmt>)
    | Branch(chain: Chain)

  datatype Chain = Chain(cond: Cond, body: seq<Stmt>, rest: Alt)

  datatype Alt = NoElse | ElseBlock(body: seq<Stmt>) | ElseIf(chain: Chain)

  // ----- Printing

  function PrintCond(c: Cond): seq<Token> {
    (if c.isConstexpr then [Constexpr] else []) + [LPar] + CondTokens(c) + [RPar]
  }

  function CondTokens(c: Cond): seq<Token> {
    match c
    case Simple(_, negated, name) => if negated then [Not, Name(name)] else [Name(name)]
    case Complex(_, _, tokens) => tokens
  }

  function Braced(s: seq<Stmt>): (r: seq<Token>)
    ensures |r| >= 2 && r[0] == LBrace
    decreases s, 1
  {
    [LBrace] + PrintStmts(s) + [RBrace]
  }

  /** The keyword and the condition of a branch. */
  function Front(c: Cond): (r: seq<Token>)
    ensures r != [] && r[0] == If
  {
    [If] + PrintCond(c)
  }

  function PrintStmts(s: seq<Stmt>): seq<Token>
    decreases s, 0
  {
    if s == [] then [] else PrintStmt(s[0]) + PrintStmts(s[1..])
  }

  function PrintStmt(s: Stmt): (r: seq<Token>)
    ensures r != [] && r[0] !in {Else, RBrace}
    decreases s, 0
  {
    match s
    case Atom(id) => [Other(id)]
    case Block(body) => Braced(body)
    case Loop(id, body) => [Other(id)] + Braced(body)
    case Branch(chain) => PrintChain(chain)
  }

  function PrintChain(c: Chain): (r: seq<Token>)
    ensures r != [] && r[0] == If
    decreases c, 0
  {
    Front(c.cond) + Braced(c.body) + PrintAlt(c.rest)
  }

  function PrintAlt(a: Alt): seq<Token>
    decreases a, 0
  {
    match a
    case NoElse => []
    case ElseBlock(body) => [Else] + Braced(body)
    case ElseIf(chain) => [Else] + PrintChain(chain)
  }

  // ----- Well-formed programs

  /** A flag of the table: its value, and its place in the order in which the folder tries the flags. */
  datatype Flag = Flag(value: bool, rank: nat)

  type Table = map<string, Flag>

  predicate Listed(t: Table, c: Cond) {
    c.Simple? && c.name in t
  }

  predicate Holds(t: Table, c: Cond)
    requires Listed(t, c)
  {
    t[c.name].value != c.negated
  }

  /** Opaque conditions contain no branches and no braces, and are not a name in disguise. */
  predicate CondOk(c: Cond) {
    c.Complex? ==>
      && (forall i :: 0 <= i < |c.tokens| ==> c.tokens[i] !in {If, LBrace, RBrace})
      && !(|c.tokens| == 1 && c.tokens[0].Name?)
      && !(|c.tokens| == 2 && c.tokens[0] == Not && c.tokens[1].Name?)
  }

  /** No link of the chain is an `else if constexpr`. */
  predicate PlainLinks(a: Alt) {
    a.ElseIf? ==> !a.chain.cond.isConstexpr && PlainLinks(a.chain.rest)
  }

  predicate StmtsOk(s: seq<Stmt>)
    decreases s, 0
  {
    s == [] || (StmtOk(s[0]) && StmtsOk(s[1..]))
  }

  predicate StmtOk(s: Stmt)
    decreases s, 0
  {
    match s
    case Atom(_) => true
    case Block(body) => StmtsOk(body)
    case Loop(_, body) => StmtsOk(body)
    case Branch(chain) => ChainOk(chain)
  }

  predicate ChainOk(c: Chain)
    decreases c, 0
  {
    CondOk(c.cond) && StmtsOk(c.body) && AltOk(c.rest)
  }

  predicate AltOk(a: Alt)
    decreases a, 0
  {
    match a
    case NoElse => true
    case ElseBlock(body) => StmtsOk(body)
    case ElseIf(chain) => ChainOk(chain)
  }

  // ----- Programs that folding handles

  /** When the flags below a rank have been dealt with, no link of the chain is an `else if constexpr`: it
      never was one, or a link up to it is on such a flag and has become an `else` block. */
  predicate PlainBy(t: Table, a: Alt, rank: nat) {
    a.ElseIf? ==>
      || (Listed(t, a.chain.cond) && t[a.chain.cond.name].rank < rank)
      || (!a.chain.cond.isConstexpr && PlainBy(t, a.chain.rest, rank))
  }

  /** The limit for one side of a chain: the side that a listed flag discards is gone when the flag is tried. */
  function Limit(t: Table, limit: nat, c: Cond, selects: bool): nat {
    if Listed(t, c) && Holds(t, c) != selects && t[c.name].rank < limit then t[c.name].rank else limit
  }

  /** By the time a listed flag below the limit is tried, the chain behind a branch on it is plain.  A flag at
      or above the limit is not tried before the text around it is discarded. */
  predicate StmtsReady(t: Table, limit: nat, s: seq<Stmt>)
    decreases s, 0
  {
    s == [] || (StmtReady(t, limit, s[0]) && StmtsReady(t, limit, s[1..]))
  }

  predicate StmtReady(t: Table, limit: nat, s: Stmt)
    decreases s, 0
  {
    match s
    case Atom(_) => true
    case Block(body) => StmtsReady(t, limit, body)
    case Loop(_, body) => StmtsReady(t, limit, body)
    case Branch(chain) => ChainReady(t, limit, chain)
  }

  predicate ChainReady(t: Table, limit: nat, c: Chain)
    decreases c, 0
  {
    && (Listed(t, c.cond) && t[c.cond.name].rank < limit ==> PlainBy(t, c.rest, t[c.cond.name].rank))
    && StmtsReady(t, Limit(t, limit, c.cond, true), c.body)
    && AltReady(t, Limit(t, limit, c.cond, false), c.rest)
  }

  predicate AltReady(t: Table, limit: nat, a: Alt)
    decreases a, 0
  {
    match a
    case NoElse => true
    case ElseBlock(body) => StmtsReady(t, limit, body)
    case ElseIf(chain) => ChainReady(t, limit, chain)
  }

  // ----- Deciding every listed branch

  /** The statements of an alternative when it stands for a whole branch. */
  function AltStmts(a: Alt): seq<Stmt> {
    match a
    case NoElse => []
    case ElseBlock(body) => body
    case ElseIf(chain) => [Branch(chain)]
  }

  /** The statements that the value of a flag selects. */
  function Selected(c: Chain, value: bool): seq<Stmt>
    requires c.cond.Simple?
  {
    if value != c.cond.negated then c.body else AltStmts(c.rest)
  }

  /** Every branch on a listed flag is replaced by what it selects, and blocks are dissolved. */
  function Reduce(t: Table, s: seq<Stmt>): seq<Stmt>
    decreases s, 0
  {
    if s == [] then [] else ReduceStmt(t, s[0]) + Reduce(t, s[1..])
  }

  function ReduceStmt(t: Table, s: Stmt): seq<Stmt>
    decreases s, 0
  {
    match s
    case Atom(_) => [s]
    case Block(body) => Reduce(t, body)
    case Loop(id, body) => [Loop(id, Reduce(t, body))]
    case Branch(c) => ReduceChain(t, c)
  }

  function ReduceChain(t: Table, c: Chain): seq<Stmt>
    decreases c, 0
  {
    if Listed(t, c.cond) then (if Holds(t, c.cond) then Reduce(t, c.body) else ReduceAltStmts(t, c.rest))
    else [Branch(Chain(c.cond, Reduce(t, c.body), ReduceAlt(t, c.rest)))]
  }

  function ReduceAltStmts(t: Table, a: Alt): seq<Stmt>
    decreases a, 0
  {
    match a
    case NoElse => []
    case ElseBlock(body) => Reduce(t, body)
    case ElseIf(c) => ReduceChain(t, c)
  }

  function ReduceAlt(t: Table, a: Alt): Alt
    decreases a, 0
  {
    match a
    case NoElse => NoElse
    case ElseBlock(body) => ElseBlock(Reduce(t, body))
    case ElseIf(c) =>
      if Listed(t, c.cond) then ElseBlock(ReduceChain(t, c))
      else ElseIf(Chain(c.cond, Reduce(t, c.body), ReduceAlt(t, c.rest)))
  }

  lemma {:induction false} ReduceOne(t: Table, s: Stmt)
    ensures Reduce(t, [s]) == ReduceStmt(t, s)
  {
    assert [s][1..] == [];
  }

  /** Replacing a listed branch by a block around what it selects changes nothing that is reduced. */
  lemma {:induction false} SelectedReduces(t: Table, c: Chain)
    requires Listed(t, c.cond)
    ensures Reduce(t, Selected(c, t[c.cond.name].value)) == ReduceChain(t, c)
  {
    if !Holds(t, c.cond) && c.rest.ElseIf? {
      ReduceOne(t, Branch(c.rest.chain));
    }
  }

  // ----- Meaning

  /** What the parts of a program do to a state. */
  datatype Env<!S> = Env(
    value: (string, S) -> bool,
    test: (nat, S) -> bool,
    step: (nat, S) -> S,
    repeats: (nat, S) -> bool)

  predicate Taken<S>(env: Env<S>, c: Cond, s: S) {
    match c
    case Simple(_, negated, name) => env.value(name, s) != negated
    case Complex(_, id, _) => env.test(id, s)
  }

  /** Running a program; None when the fuel for loop iterations runs out. */
  function RunStmts<S>(env: Env<S>, p: seq<Stmt>, s: S, fuel: nat): Option<S>
    decreases fuel, p, 0
  {
    if p == [] then Some(s)
    else
      match RunStmt(env, p[0], s, fuel)
      case None => None
      case Some(t) => RunStmts(env, p[1..], t, fuel)
  }

  function RunStmt<S>(env: Env<S>, p: Stmt, s: S, fuel: nat): Option<S>
    decreases fuel, p, 0
  {
    match p
    case Atom(id) => Some(env.step(id, s))
    case Block(body) => RunStmts(env, body, s, fuel)
    case Loop(id, body) =>
      if !env.repeats(id, s) then Some(s)
      else if fuel == 0 then None
      else (match RunStmts(env, body, s, fuel - 1)
            case None => None
            case Some(t) => RunStmt(env, p, t, fuel - 1))
    case Branch(chain) => RunChain(env, chain, s, fuel)
  }

  function RunChain<S>(env: Env<S>, c: Chain, s: S, fuel: nat): Option<S>
    decreases fuel, c, 0
  {
    if Taken(env, c.cond, s) then RunStmts(env, c.body, s, fuel) else RunAlt(env, c.rest, s, fuel)
  }

  function RunAlt<S>(env: Env<S>, a: Alt, s: S, fuel: nat): Option<S>
    decreases fuel, a, 0
  {
    match a
    case NoElse => Some(s)
    case ElseBlock(body) => RunStmts(env, body, s, fuel)
    case ElseIf(chain) => RunChain(env, chain, s, fuel)
  }

  /** The environment gives every listed flag its table value, in every state. */
  ghost predicate Agrees<S(!new)>(env: Env<S>, t: Table) {
    forall name, s: S :: name in t ==> env.value(name, s) == t[name].value
  }

  lemma {:induction false} RunConcat<S>(env: Env<S>, a: seq<Stmt>, b: seq<Stmt>, s: S, fuel: nat)
    ensures var r := RunStmts(env, a, s, fuel);
      RunStmts(env, a + b, s, fuel) == if r.Some? then RunStmts(env, b, r.value, fuel) else None
    decreases |a|
  {
    if a == [] {
      assert a + b == b;
    } else {
      assert (a + b)[1..] == a[1..] + b;
      var r := RunStmt(env, a[0], s, fuel);
      if r.Some? {
        RunConcat(env, a[1..], b, r.value, fuel);
      }
    }
  }

  lemma {:induction false} RunOne<S>(env: Env<S>, p: Stmt, s: S, fuel: nat)
    ensures RunStmts(env, [p], s, fuel) == RunStmt(env, p, s, fuel)
  {
    assert [p][1..] == [];
  }

  /** MAIN RESULT.  Deciding the listed branches changes nothing in any environment that agrees with
      the table. */
  lemma {:induction false} ReduceKeepsMeaning<S(!new)>(env: Env<S>, t: Table, p: seq<Stmt>, s: S, fuel: nat)
    requires Agrees(env, t)
    ensures RunStmts(env, Reduce(t, p), s, fuel) == RunStmts(env, p, s, fuel)
    decreases fuel, p, 0
  {
    if p != [] {
      RunConcat(env, ReduceStmt(t, p[0]), Reduce(t, p[1..]), s, fuel);
      ReduceStmtKeepsMeaning(env, t, p[0], s, fuel);
      var r := RunStmt(env, p[0], s, fuel);
      if r.Some? {
        ReduceKeepsMeaning(env, t, p[1..], r.value, fuel);
      }
    }
  }

  lemma {:induction false} ReduceStmtKeepsMeaning<S(!new)>(env: Env<S>, t: Table, p: Stmt, s: S, fuel: nat)
    requires Agrees(env, t)
    ensures RunStmts(env, ReduceStmt(t, p), s, fuel) == RunStmt(env, p, s, fuel)
    decreases fuel, p, 0
  {
    match p
    case Atom(_) => RunOne(env, p, s, fuel);
    case Block(body) => ReduceKeepsMeaning(env, t, body, s, fuel);
    case Loop(id, body) =>
      var q := Loop(id, Reduce(t, body));
      RunOne(env, q, s, fuel);
      if env.repeats(id, s) && fuel > 0 {
        ReduceKeepsMeaning(env, t, body, s, fuel - 1);
        var r := RunStmts(env, body, s, fuel - 1);
        if r.Some? {
          ReduceStmtKeepsMeaning(env, t, p, r.value, fuel - 1);
          RunOne(env, q, r.value, fuel - 1);
        }
      }
    case Branch(c) => ReduceChainKeepsMeaning(env, t, c, s, fuel);
  }

  lemma {:induction false} ReduceChainKeepsMeaning<S(!new)>(env: Env<S>, t: Table, c: Chain, s: S, fuel: nat)
    requires Agrees(env, t)
    ensures RunStmts(env, ReduceChain(t, c), s, fuel) == RunChain(env, c, s, fuel)
    decreases fuel, c, 0
  {
    ReduceKeepsMeaning(env, t, c.body, s, fuel);
    ReduceAltKeepsMeaning(env, t, c.rest, s, fuel);
    if !Listed(t, c.cond) {
      RunOne(env, ReduceChain(t, c)[0], s, fuel);
    }
  }

  lemma {:induction false} ReduceAltKeepsMeaning<S(!new)>(env: Env<S>, t: Table, a: Alt, s: S, fuel: nat)
    requires Agrees(env, t)
    ensures RunAlt(env, ReduceAlt(t, a), s, fuel) == RunAlt(env, a, s, fuel)
    ensures RunStmts(env, ReduceAltStmts(t, a), s, fuel) == RunAlt(env, a, s, fuel)
    decreases fuel, a, 0
  {
    match a
    case NoElse =>
    case ElseBlock(body) => ReduceKeepsMeaning(env, t, body, s, fuel);
    case ElseIf(c) =>
      ReduceChainKeepsMeaning(env, t, c, s, fuel);
      if !Listed(t, c.cond) {
        RunOne(env, ReduceChain(t, c)[0], s, fuel);
      }
  }

  // ----- What is left

  /** No branch condition on a listed flag remains. */
  predicate FreeOf(t: Table, s: seq<Stmt>)
    decreases s, 0
  {
    s == [] || (StmtFreeOf(t, s[0]) && FreeOf(t, s[1..]))
  }

  predicate StmtFreeOf(t: Table, s: Stmt)
    decreases s, 0
  {
    match s
    case Atom(_) => true
    case Block(body) => FreeOf(t, body)
    case Loop(_, body) => FreeOf(t, body)
    case Branch(c) => ChainFreeOf(t, c)
  }

  predicate ChainFreeOf(t: Table, c: Chain)
    decreases c, 0
  {
    !Listed(t, c.cond) && FreeOf(t, c.body) && AltFreeOf(t, c.rest)
  }

  predicate AltFreeOf(t: Table, a: Alt)
    decreases a, 0
  {
    match a
    case NoElse => true
    case ElseBlock(body) => FreeOf(t, body)
    case ElseIf(c) => ChainFreeOf(t, c)
  }

  /** The flags below a rank. */
  function Earlier(t: Table, rank: nat): Table {
    map name | name in t && t[name].rank < rank :: t[name]
  }

  lemma {:induction false} PlainByThen(t: Table, a: Alt, rank: nat)
    requires PlainBy(t, a, rank) && AltFreeOf(Earlier(t, rank), a)
    ensures PlainLinks(a)
  {
    if a.ElseIf? {
      PlainByThen(t, a.chain.rest, rank);
    }
  }

  /** A program free of listed flags has nothing left to decide. */
  lemma {:induction false} FreeIsReduced(t: Table, s: seq<Stmt>)
    requires FreeOf(t, s)
    ensures Reduce(t, s) == Reduce(map[], s)
    decreases s, 0
  {
    if s != [] {
      StmtFreeIsReduced(t, s[0]);
      FreeIsReduced(t, s[1..]);
    }
  }

  lemma {:induction false} StmtFreeIsReduced(t: Table, s: Stmt)
    requires StmtFreeOf(t, s)
    ensures ReduceStmt(t, s) == ReduceStmt(map[], s)
    decreases s, 0
  {
    match s
    case Atom(_) =>
    case Block(body) => FreeIsReduced(t, body);
    case Loop(_, body) => FreeIsReduced(t, body);
    case Branch(c) => ChainFreeIsReduced(t, c);
  }

  lemma {:induction false} ChainFreeIsReduced(t: Table, c: Chain)
    requires ChainFreeOf(t, c)
    ensures ReduceChain(t, c) == ReduceChain(map[], c)
    decreases c, 0
  {
    FreeIsReduced(t, c.body);
    AltFreeIsReduced(t, c.rest);
  }

  lemma {:induction false} AltFreeIsReduced(t: Table, a: Alt)
    requires AltFreeOf(t, a)
    ensures ReduceAlt(t, a) == ReduceAlt(map[], a)
    decreases a, 0
  {
    match a
    case NoElse =>
    case ElseBlock(body) => FreeIsReduced(t, body);
    case ElseIf(c) =>
      FreeIsReduced(t, c.body);
      AltFreeIsReduced(t, c.rest);
  }
}

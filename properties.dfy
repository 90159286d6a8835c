// What the round trip says about the grammar: the parser inverts the
// printer on expressions, blocks and whole source files; the precedence
// table and the associativities at work; the statement rules; and the
// reading of `field_expr` and `right_unary_expr` as grammar.js writes them.

module LunProperties {
  import opened LunTokens
  import opened LunAst
  import opened LunParser
  import opened LunPrinter
  import opened LunLayout
  import opened LunSteps
  import opened LunRoundTrip

  // ---------------------------------------------------------------------
  // The round trip

  /** The whole printed token sequence of a printable tree parses back to it */
  lemma RoundTrip(e: Expr)
    requires Printable(e)
    ensures Parser(Print(e), PrecField).ParseExpr(0, Top, true) == Ok(e, |Print(e)|)
  {
    hide Parser.ParseExpr, Parser.ParseInfix;
    var p := Parser(Print(e), PrecField);
    assert p.toks[0..|Print(e)|] == Print(e);
    EndFollows(p, e, true);
    ExprRT(p, e, 0, |Print(e)|, Top, true);
  }

  /** Distinct printable trees print differently */
  lemma PrintInjective(e1: Expr, e2: Expr)
    requires Printable(e1) && Printable(e2) && Print(e1) == Print(e2)
    ensures e1 == e2
  {
    RoundTrip(e1);
    RoundTrip(e2);
  }

  /** `arguments`, that is `sep(_expression, ',')` then `)`: the arguments
      read back with or without a trailing comma */
  lemma ArgsRoundTrip(args: seq<Expr>, trailing: bool)
    requires forall a | a in args :: Printable(a)
    ensures var t := PrintArgs(args, trailing) + [Sym(RParen)];
            Parser(t, PrecField).ParseArgs(0, []) == Ok(args, |t|)
  {
    hide Parser.ParseArgs;
    var t := PrintArgs(args, trailing) + [Sym(RParen)];
    var p := Parser(t, PrecField);
    AtSplit(p, 0, PrintArgs(args, trailing), [Sym(RParen)]) by {
      assert p.toks[0..|t|] == t;
    }
    ArgsRT(p, args, [], 0, |t|, trailing);
    assert [] + args == args;
  }

  /** `block`: a printable block reads back from its printed tokens */
  lemma BlockRoundTrip(b: Block)
    requires PrintableBlock(b)
    ensures Parser(PrintBlock(b), PrecField).ParseBlock(0) == Ok(b, |PrintBlock(b)|)
  {
    hide Parser.ParseBlock;
    var p := Parser(PrintBlock(b), PrecField);
    assert p.toks[0..|PrintBlock(b)|] == PrintBlock(b);
    BlockRT(p, b, 0, |PrintBlock(b)|);
  }

  /** `source_file`: the printed definitions read back, all of them, and
      the parse ends exactly at the end of the tokens */
  lemma SourceRoundTrip(its: seq<Item>)
    requires PrintableItems(its)
    ensures Parser(PrintItems(its), PrecField).ParseItems(0, []) == Ok(its, |PrintItems(its)|)
  {
    hide Parser.ParseItems;
    var p := Parser(PrintItems(its), PrecField);
    assert p.toks[0..|PrintItems(its)|] == PrintItems(its);
    ItemsRT(p, its, [], 0);
    assert [] + its == its;
  }

  /** Distinct printable sources print differently */
  lemma SourceInjective(a: seq<Item>, b: seq<Item>)
    requires PrintableItems(a) && PrintableItems(b) && PrintItems(a) == PrintItems(b)
    ensures a == b
  {
    SourceRoundTrip(a);
    SourceRoundTrip(b);
  }

  // ---------------------------------------------------------------------
  // Statements and the values of definitions

  /** The conflict between `_expression` and `_statement`: a with-block
      expression right before `}` is the block's `last_expr`, not a statement */
  lemma WithBlockIsLast(x: Expr)
    requires WithBlock(x) && Printable(x)
    ensures var t := [Sym(LBrace)] + (Print(x) + [Sym(RBrace)]);
            Parser(t, PrecField).ParseBlock(0) == Ok(Block([], Some(x)), |t|)
  {
    var b := Block([], Some(x));
    assert PrintBlock(b) == [Sym(LBrace)] + (Print(x) + [Sym(RBrace)]);
    BlockRoundTrip(b);
  }

  /** A printable expression printed at `pos` and followed there by `;` is
      read up to the `;` */
  lemma ReadToSemi(p: Parser, x: Expr, pos: nat, m: nat)
    requires p.fieldLevel == PrecField && Printable(x) && Placed(p, x, pos, m)
    requires m < |p.toks| && p.toks[m] == Sym(Semi)
    ensures p.ParseExpr(pos, Top, true) == Ok(x, m)
  {
    hide Parser.ParseExpr, Print, Printable;
    SemiStops(p, m);
    SemiFollows(p, x, m);
    ExprRT(p, x, pos, m, Top, true);
  }

  lemma SemiFollows(p: Parser, x: Expr, m: nat)
    requires Printable(x) && m < |p.toks| && p.toks[m] == Sym(Semi)
    ensures FollowOk(p, m, x, true)
  {
    SymFollows(p, m, x, true);
  }

  /** Nothing begins with `;`: `_statement` has no empty statement */
  lemma NothingAtSemi(p: Parser, pos: nat, acc: seq<Expr>)
    requires pos < |p.toks| && p.toks[pos] == Sym(Semi) && forall s | s in acc :: WfExpr(s)
    ensures p.ParseStmts(pos, acc).Fail?
  {
    assert p.ParsePrefix(pos, true).Fail?;
  }

  /** A with-block statement takes no `;`, so `{ x ; }` is rejected */
  lemma NoSemiAfterWithBlock(x: Expr)
    requires WithBlock(x) && Printable(x)
    ensures Parser([Sym(LBrace)] + Print(x) + [Sym(Semi), Sym(RBrace)], PrecField).ParseBlock(0).Fail?
  {
    var t := [Sym(LBrace)] + Print(x) + [Sym(Semi), Sym(RBrace)];
    var p := Parser(t, PrecField);
    var m := 1 + |Print(x)|;
    assert At(p, 0, t) by {
      assert p.toks[0..|t|] == t;
    }
    PrintableWf(x);
    hide *;
    AtSplit(p, 0, [Sym(LBrace)] + Print(x), [Sym(Semi), Sym(RBrace)]);
    KeywordlessSplit(p, 0, Sym(LBrace), Print(x));
    AtTwo(p, m, Sym(Semi), Sym(RBrace));
    PlacedHead(p, x, 1, m);
    ReadToSemi(p, x, 1, m);
    BlockEnter(p, 0);
    StmtsWithStep(p, 1, [], x, m);
    NothingAtSemi(p, m, [] + [x]);
  }

  /** `seq(value, optional(';'))` for a with-block value: with and without
      the `;`, the value reads the same */
  lemma ValueOptionalSemi(v: Expr)
    requires WithBlock(v) && Printable(v)
    ensures Parser(Print(v), PrecField).ParseItemValue(0) == Ok(v, |Print(v)|)
    ensures Parser(Print(v) + [Sym(Semi)], PrecField).ParseItemValue(0) == Ok(v, |Print(v)| + 1)
  {
    RoundTrip(v);
    var p := Parser(Print(v) + [Sym(Semi)], PrecField);
    assert Placed(p, v, 0, |Print(v)|) by {
      assert p.toks[0..|Print(v)|] == Print(v);
    }
    ReadToSemi(p, v, 0, |Print(v)|);
  }

  /** A without-block statement needs its `;`: in `{ a b }` the statement
      `a` is followed by neither `;` nor `}` */
  lemma MissingSemi()
    ensures Parser([Sym(LBrace), Word("a"), Word("b"), Sym(RBrace)], PrecField).ParseBlock(0) == Fail(2)
  {
    var p := Parser([Sym(LBrace), Word("a"), Word("b"), Sym(RBrace)], PrecField);
    assert p.ParsePrefix(1, true) == Ok(Var("a"), 2);
    InfixStop(p, Var("a"), 2, Top, true);
  }

  /** The same for any two statements: a printed without-block `x` followed
      directly by a printed `y` is refused where `y` begins, unless `y`
      would extend `x` instead (a `(`, `-` or `&` that glues onto it, an
      operand of a trailing `return` or `break`, a string after a path, an
      `else` after an `if`) */
  lemma MissingSemiBetween(x: Expr, y: Expr)
    requires Printable(x) && Printable(y) && !WithBlock(x)
    requires !Glues(FirstTok(y)) && !OpenEnd(x)
    requires RightEnd(x).PathE? ==> !FirstTok(y).Str?
    requires RightEnd(x).If? ==> FirstTok(y) != Word("else")
    ensures var t := [Sym(LBrace)] + Print(x) + Print(y) + [Sym(RBrace)];
            Parser(t, PrecField).ParseBlock(0) == Fail(1 + |Print(x)|)
  {
    hide *;
    var t := [Sym(LBrace)] + Print(x) + Print(y) + [Sym(RBrace)];
    var p := Parser(t, PrecField);
    var n := 1 + |Print(x)|;
    TwoPlaced(p, x, y);
    PlacedHead(p, x, 1, n);
    StartStops(p, n, y);
    NextFollows(p, n, x, y);
    StmtReady(p, x, n);
    ExprRT(p, x, 1, n, Top, true);
    UnendedStmt(p, x, n);
  }

  lemma StmtReady(p: Parser, x: Expr, n: nat)
    requires p.fieldLevel == PrecField && Printable(x) && Placed(p, x, 1, n)
    requires n <= |p.toks| && !p.Continues(n, Top) && FollowOk(p, n, x, true)
    ensures ExprReady(p, x, 1, n, Top, true)
  {
  }

  /** Where `x` and `y` lie in `{ x y }` */
  lemma TwoPlaced(p: Parser, x: Expr, y: Expr)
    requires Printable(x) && Printable(y)
    requires p.toks == [Sym(LBrace)] + Print(x) + Print(y) + [Sym(RBrace)]
    ensures var n := 1 + |Print(x)|;
            && n < |p.toks| && p.toks[0] == Sym(LBrace) && p.toks[1] == FirstTok(x) && p.toks[n] == FirstTok(y)
            && Placed(p, x, 1, n)
  {
    hide Print, Printable;
    FirstToken(x);
    FirstToken(y);
    var n := 1 + |Print(x)|;
    AtCat3(p, 0, [Sym(LBrace)] + Print(x), Print(y), [Sym(RBrace)]);
    AtSplit(p, 0, [Sym(LBrace)], Print(x));
    AtSplit(p, n, [Print(y)[0]], Print(y)[1..]);
    AtOne(p, n, Print(y)[0]);
    AtSplit(p, 1, [Print(x)[0]], Print(x)[1..]);
    AtOne(p, 1, Print(x)[0]);
  }

  /** The first token of `y` follows `x`, unless it would extend `x` */
  lemma NextFollows(p: Parser, n: nat, x: Expr, y: Expr)
    requires Printable(y) && n < |p.toks| && p.toks[n] == FirstTok(y) && !OpenEnd(x)
    requires RightEnd(x).PathE? ==> !FirstTok(y).Str?
    requires RightEnd(x).If? ==> FirstTok(y) != Word("else")
    ensures FollowOk(p, n, x, true) && !p.SymAt(n, Semi) && !p.SymAt(n, RBrace)
  {
    FirstToken(y);
  }

  /** A statement that is neither a with-block one nor followed by `;` or `}`
      stops the block where it ends */
  lemma UnendedStmt(p: Parser, x: Expr, n: nat)
    requires 1 < |p.toks| && p.toks[0] == Sym(LBrace) && !p.SymAt(1, RBrace)
    requires p.ParseExpr(1, Top, true) == Ok(x, n) && !WithBlock(x)
    requires !p.SymAt(n, RBrace) && !p.SymAt(n, Semi)
    ensures p.ParseBlock(0) == Fail(n)
  {
  }

  // ---------------------------------------------------------------------
  // The precedence table at work

  /** An operand that binds at least as tightly as a prefix operator:
      a primary, a call, a field access, a dereference or a prefix expression */
  predicate Operand(x: Expr) { Printable(x) && Level(x) >= PrecUnary }

  /** `RoundTrip`, for a token sequence known to be the printed tree */
  lemma RoundTripOf(e: Expr, t: seq<Token>)
    requires Printable(e) && Print(e) == t
    ensures Parser(t, PrecField).ParseExpr(0, Top, true) == Ok(e, |t|)
  {
    hide *;
    RoundTrip(e);
  }

  /** `prec.left`: two operators of one level group to the left */
  lemma LeftAssociative(o1: BinOp, o2: BinOp, a: Expr, b: Expr, c: Expr)
    requires BinLevel(o1) == BinLevel(o2) && Operand(a) && Operand(b) && Operand(c)
    ensures var t := Print(a) + [Sym(BinPunct(o1))] + Print(b) + [Sym(BinPunct(o2))] + Print(c);
            Parser(t, PrecField).ParseExpr(0, Top, true) == Ok(Binary(o2, Binary(o1, a, b), c), |t|)
  {
    var l := Binary(o1, a, b);
    assert Printable(l);
    RoundTripOf(Binary(o2, l, c), Print(l) + [Sym(BinPunct(o2))] + Print(c));
  }

  /** A tighter operator on the right takes `b` as its left operand */
  lemma TighterOnRight(o1: BinOp, o2: BinOp, a: Expr, b: Expr, c: Expr)
    requires BinLevel(o1) < BinLevel(o2) && Operand(a) && Operand(b) && Operand(c)
    ensures var t := Print(a) + [Sym(BinPunct(o1))] + (Print(b) + [Sym(BinPunct(o2))] + Print(c));
            Parser(t, PrecField).ParseExpr(0, Top, true) == Ok(Binary(o1, a, Binary(o2, b, c)), |t|)
  {
    var r := Binary(o2, b, c);
    assert Printable(r);
    RoundTripOf(Binary(o1, a, r), Print(a) + [Sym(BinPunct(o1))] + Print(r));
  }

  /** A tighter operator on the left takes `b` as its right operand */
  lemma TighterOnLeft(o1: BinOp, o2: BinOp, a: Expr, b: Expr, c: Expr)
    requires BinLevel(o1) < BinLevel(o2) && Operand(a) && Operand(b) && Operand(c)
    ensures var t := Print(a) + [Sym(BinPunct(o2))] + Print(b) + [Sym(BinPunct(o1))] + Print(c);
            Parser(t, PrecField).ParseExpr(0, Top, true) == Ok(Binary(o1, Binary(o2, a, b), c), |t|)
  {
    var l := Binary(o2, a, b);
    assert Printable(l);
    RoundTripOf(Binary(o1, l, c), Print(l) + [Sym(BinPunct(o1))] + Print(c));
  }

  /** `prec.right` of `assign_expr`: `a = b = c` assigns `b = c` to `a` */
  lemma AssignRightAssociative(a: Expr, b: Expr, c: Expr)
    requires Operand(a) && Operand(b) && Operand(c)
    ensures var t := Print(a) + [Sym(Eq)] + (Print(b) + [Sym(Eq)] + Print(c));
            Parser(t, PrecField).ParseExpr(0, Top, true) == Ok(Assign(a, Assign(b, c)), |t|)
  {
    var r := Assign(b, c);
    assert Printable(r);
    RoundTripOf(Assign(a, r), Print(a) + [Sym(Eq)] + Print(r));
  }

  /** Assignment binds more loosely than every binary operator */
  lemma AssignLoosest(o: BinOp, a: Expr, b: Expr, c: Expr)
    requires Operand(a) && Operand(b) && Operand(c)
    ensures var t := Print(a) + [Sym(Eq)] + (Print(b) + [Sym(BinPunct(o))] + Print(c));
            Parser(t, PrecField).ParseExpr(0, Top, true) == Ok(Assign(a, Binary(o, b, c)), |t|)
  {
    var r := Binary(o, b, c);
    assert Printable(r);
    RoundTripOf(Assign(a, r), Print(a) + [Sym(Eq)] + Print(r));
  }

  /** A prefix `-` or `!` binds more tightly than every binary operator */
  lemma PrefixOverBinary(u: UnOp, o: BinOp, a: Expr, b: Expr)
    requires Operand(a) && Operand(b)
    ensures var t := [Sym(UnPunct(u))] + Print(a) + [Sym(BinPunct(o))] + Print(b);
            Parser(t, PrecField).ParseExpr(0, Top, true) == Ok(Binary(o, Unary(u, a), b), |t|)
  {
    var l := Unary(u, a);
    assert Printable(l);
    RoundTripOf(Binary(o, l, b), Print(l) + [Sym(BinPunct(o))] + Print(b));
  }

  /** A field access binds more tightly than a prefix operator: `-a.f` negates `a.f` */
  lemma FieldOverPrefix(u: UnOp, a: Expr, f: string)
    requires Printable(a) && Level(a) >= PrecCall
    ensures var t := [Sym(UnPunct(u))] + (Print(a) + [Sym(Dot), Word(f)]);
            Parser(t, PrecField).ParseExpr(0, Top, true) == Ok(Unary(u, Field(a, f)), |t|)
  {
    var x := Field(a, f);
    assert Printable(x);
    RoundTripOf(Unary(u, x), [Sym(UnPunct(u))] + Print(x));
  }

  /** A call binds more tightly than a prefix operator: `-f(x)` negates the call's result */
  lemma CallOverPrefix(u: UnOp, f: Expr, args: seq<Expr>)
    requires Printable(f) && Level(f) >= PrecCall && forall a | a in args :: Printable(a)
    ensures var t := [Sym(UnPunct(u))] + (Print(f) + [Sym(LParen)] + PrintArgs(args, false) + [Sym(RParen)]);
            Parser(t, PrecField).ParseExpr(0, Top, true) == Ok(Unary(u, Call(f, args)), |t|)
  {
    var x := Call(f, args);
    assert Printable(x);
    RoundTripOf(Unary(u, x), [Sym(UnPunct(u))] + Print(x));
  }

  /** With `field_expr` at `PREC.field`, `a + b.f` reads `b.f` as the right operand */
  lemma FieldOverBinary(o: BinOp, a: Expr, b: Expr, f: string)
    requires Operand(a) && Printable(b) && Level(b) >= PrecCall
    ensures var t := Print(a) + [Sym(BinPunct(o))] + (Print(b) + [Sym(Dot), Word(f)]);
            Parser(t, PrecField).ParseExpr(0, Top, true) == Ok(Binary(o, a, Field(b, f)), |t|)
  {
    var r := Field(b, f);
    assert Printable(r);
    RoundTripOf(Binary(o, a, r), Print(a) + [Sym(BinPunct(o))] + Print(r));
  }

  /** With `right_unary_expr` at `PREC.field`, `a + b.*` dereferences `b` only */
  lemma DerefOverBinary(o: BinOp, a: Expr, b: Expr)
    requires Operand(a) && Printable(b) && Level(b) >= PrecCall
    ensures var t := Print(a) + [Sym(BinPunct(o))] + (Print(b) + [Sym(DotStar)]);
            Parser(t, PrecField).ParseExpr(0, Top, true) == Ok(Binary(o, a, Deref(b)), |t|)
  {
    var r := Deref(b);
    assert Printable(r);
    RoundTripOf(Binary(o, a, r), Print(a) + [Sym(BinPunct(o))] + Print(r));
  }

  function Var(x: string): Expr { PathE(Name(x), []) }

  /** A name with nothing of a path after it reads as a one-word path */
  lemma NameStep(p: Parser, pos: nat, x: string, c: Ctx)
    requires pos + 1 < |p.toks| && p.toks[pos] == Word(x) && PlainName(x)
    requires p.toks[pos + 1].Sym? && p.toks[pos + 1].p !in {Colon, ColonColon}
    ensures p.ParseExpr(pos, c, true) == p.ParseInfix(Var(x), pos + 1, c, true)
  {
    RootStep(p, Name(x), pos, true);
  }

  /** The tokens `a + b` then a postfix operator, read with `fieldLevel` 0 */
  predicate SumThenPostfix(p: Parser) {
    && 3 < |p.toks| && p.toks[0] == Word("a") && p.toks[1] == Sym(Plus) && p.toks[2] == Word("b")
    && (p.toks[3] == Sym(Dot) || p.toks[3] == Sym(DotStar)) && p.fieldLevel == 0
  }

  /** The right operand of `+` stops before the postfix operator */
  lemma SumRight(p: Parser)
    requires SumThenPostfix(p) == true
    ensures p.ParseExpr(2, Ctx(PrecTerm, false), true) == Ok(Var("b"), 3)
  {
    var term := Ctx(PrecTerm, false);
    assert !p.Continues(3, term);
    NameStep(p, 2, "b", term);
    InfixStop(p, Var("b"), 3, term, true);
  }

  lemma SumTokens(p: Parser)
    requires SumThenPostfix(p) == true
    ensures 1 < |p.toks| && p.toks[0] == Word("a") && PlainName("a")
    ensures p.toks[1].Sym? && p.toks[1].p !in {Colon, ColonColon}
    ensures p.toks[1] == Sym(BinPunct(Add)) && Absorbs(Top, BinLevel(Add))
  {
  }

  /** So the climbing loop from 0 holds the sum when it meets that operator */
  lemma SumPrefix(p: Parser)
    requires SumThenPostfix(p) == true
    ensures p.ParseExpr(0, Top, true) == p.ParseInfix(Binary(Add, Var("a"), Var("b")), 3, Top, true)
  {
    SumTokens(p);
    SumRight(p);
    hide *;
    NameStep(p, 0, "a", Top);
    BinaryStep(p, Binary(Add, Var("a"), Var("b")), 1, 3, Top, true);
  }

  /** As written, `field_expr` and `right_unary_expr` carry no precedence
      (level 0), so `a + b.c` accesses `c` of the sum */
  lemma FieldAsWritten()
    ensures Parser([Word("a"), Sym(Plus), Word("b"), Sym(Dot), Word("c")], 0).ParseExpr(0, Top, true)
         == Ok(Field(Binary(Add, Var("a"), Var("b")), "c"), 5)
  {
    hide Parser.ParseExpr, Parser.ParseInfix;
    var p := Parser([Word("a"), Sym(Plus), Word("b"), Sym(Dot), Word("c")], 0);
    var sum := Binary(Add, Var("a"), Var("b"));
    SumPrefix(p);
    FieldStep(p, Field(sum, "c"), 3, Top, true);
    InfixStop(p, Field(sum, "c"), 5, Top, true);
  }

  /** As written, `a + b.*` dereferences the sum */
  lemma DerefAsWritten()
    ensures Parser([Word("a"), Sym(Plus), Word("b"), Sym(DotStar)], 0).ParseExpr(0, Top, true)
         == Ok(Deref(Binary(Add, Var("a"), Var("b"))), 4)
  {
    hide Parser.ParseExpr, Parser.ParseInfix;
    var p := Parser([Word("a"), Sym(Plus), Word("b"), Sym(DotStar)], 0);
    var sum := Binary(Add, Var("a"), Var("b"));
    SumPrefix(p);
    DerefStep(p, Deref(sum), 3, Top, true);
    InfixStop(p, Deref(sum), 4, Top, true);
  }
}

// Where the parts of a printed tree lie in the token stream, and what may
// follow a printed tree without being read as part of it. Each `...Split`
// lemma takes the hypotheses of one round-trip lemma apart into the
// hypotheses of the round trips of the tree's parts.

module LunLayout {
  import opened LunTokens
  import opened LunAst
  import opened LunParser
  import opened LunPrinter

  // ---------------------------------------------------------------------
  // Token positions

  /** The tokens of `p` at `pos` spell `t` */
  predicate At(p: Parser, pos: nat, t: seq<Token>) {
    pos + |t| <= |p.toks| && p.toks[pos..pos + |t|] == t
  }

  lemma AtSplit(p: Parser, pos: nat, a: seq<Token>, b: seq<Token>)
    requires At(p, pos, a + b)
    ensures At(p, pos, a) && At(p, pos + |a|, b)
  {
    assert p.toks[pos..pos + |a|] == (a + b)[..|a|];
    assert p.toks[pos + |a|..pos + |a| + |b|] == (a + b)[|a|..];
  }

  lemma AtCat3(p: Parser, pos: nat, a: seq<Token>, b: seq<Token>, c: seq<Token>)
    requires At(p, pos, a + b + c)
    ensures At(p, pos, a) && At(p, pos + |a|, b) && At(p, pos + |a| + |b|, c)
  {
    AtSplit(p, pos, a + b, c);
    AtSplit(p, pos, a, b);
  }

  /** `a`, then `t`, then `b`, then `u` */
  lemma AtEnclosed(p: Parser, pos: nat, a: seq<Token>, t: Token, b: seq<Token>, u: Token)
    requires At(p, pos, a + [t] + b + [u])
    ensures At(p, pos, a) && pos + |a| < |p.toks| && p.toks[pos + |a|] == t
    ensures At(p, pos + |a| + 1, b) && pos + |a| + 1 + |b| < |p.toks| && p.toks[pos + |a| + 1 + |b|] == u
  {
    AtSplit(p, pos, a + [t] + b, [u]);
    AtOne(p, pos + |a| + 1 + |b|, u);
    AtSplit(p, pos, a + [t], b);
    AtSplit(p, pos, a, [t]);
    AtOne(p, pos + |a|, t);
  }

  lemma AtOne(p: Parser, pos: nat, t: Token)
    requires At(p, pos, [t])
    ensures pos < |p.toks| && p.toks[pos] == t
  {
    assert p.toks[pos..pos + 1][0] == t;
  }

  lemma AtTwo(p: Parser, pos: nat, t: Token, u: Token)
    requires At(p, pos, [t, u])
    ensures pos + 1 < |p.toks| && p.toks[pos] == t && p.toks[pos + 1] == u
  {
    assert p.toks[pos..pos + 2][0] == t && p.toks[pos..pos + 2][1] == u;
  }

  lemma AtHead(p: Parser, pos: nat, t: seq<Token>)
    requires At(p, pos, t) && |t| > 0
    ensures pos < |p.toks| && p.toks[pos] == t[0]
  {
    assert p.toks[pos..pos + |t|][0] == t[0];
  }

  lemma AtMid(p: Parser, pos: nat, a: seq<Token>, t: Token, b: seq<Token>)
    requires At(p, pos, a + [t] + b)
    ensures At(p, pos, a) && At(p, pos + |a| + 1, b)
    ensures pos + |a| < |p.toks| && p.toks[pos + |a|] == t
  {
    AtSplit(p, pos, a + [t], b);
    AtSplit(p, pos, a, [t]);
    AtOne(p, pos + |a|, t);
  }

  /** `e` is printed at `pos` and its tokens end right before `n` */
  predicate Placed(p: Parser, e: Expr, pos: nat, n: nat) {
    n == pos + |Print(e)| && At(p, pos, Print(e))
  }

  /** A printable tree printed at `pos` begins there with its first token */
  lemma PlacedHead(p: Parser, e: Expr, pos: nat, n: nat)
    requires Printable(e) && Placed(p, e, pos, n)
    ensures pos < n <= |p.toks| && p.toks[pos] == FirstTok(e) && !p.SymAt(pos, RBrace)
  {
    FirstToken(e);
    AtHead(p, pos, Print(e));
  }

  // ---------------------------------------------------------------------
  // What may follow a printed tree

  /** The token at `n` does not glue onto the end of `e`: no `::` or string
      after a path, and no `:` after a path where labels may start; no
      `else` after an `if` without one; nothing that begins an expression
      after an operand-less `return` or `break`; no `:` after an unlabeled
      `break` or `continue` */
  predicate FollowOk(p: Parser, n: nat, e: Expr, lk: bool) {
    match RightEnd(e)
    case PathE(_, _) =>
      n < |p.toks| ==> !p.toks[n].Str? && p.toks[n] != Sym(ColonColon) && !(lk && p.toks[n] == Sym(Colon))
    case If(_, _, _) => !p.KeywordAt(n, "else")
    case Return(_) => !p.StartsExpr(n)
    case Break(t, _) => !p.StartsExpr(n) && (t.None? ==> !p.SymAt(n, Colon))
    case Continue(t) => t.None? ==> !p.SymAt(n, Colon)
    case _ => true
  }

  /** The token at `n` does not continue the last operand of `e` */
  predicate OpStop(p: Parser, n: nat, e: Expr) {
    match e
    case Binary(o, _, _) => !p.Continues(n, Ctx(BinLevel(o), false))
    case Assign(_, _) => !p.Continues(n, Ctx(PrecAssign, true))
    case Unary(_, _) => !p.Continues(n, Ctx(PrecUnary, false))
    case Borrow(_, _) => !p.Continues(n, Ctx(PrecUnary, false))
    case Return(v) => v.Some? ==> !p.Continues(n, Ctx(PrecAssign, false))
    case Break(_, v) => v.Some? ==> !p.Continues(n, Ctx(PrecAssign, false))
    case _ => true
  }

  /** What must follow `e` for the parse of `e` to stop there */
  predicate Follows(p: Parser, n: nat, e: Expr, lk: bool) {
    n <= |p.toks| && FollowOk(p, n, e, lk) && OpStop(p, n, e)
  }

  /** Trees with one right end accept the same followers */
  lemma FollowRight(p: Parser, n: nat, e: Expr, r: Expr, lk: bool)
    requires RightEnd(e) == RightEnd(r) && FollowOk(p, n, e, lk)
    ensures FollowOk(p, n, r, lk)
  {
  }

  /** A punctuation token follows `e` unless it is `::`, a `:` where labels
      may start or after an unlabeled `continue`, or a token that begins an
      expression after an operand-less `return` or `break` */
  lemma SymFollows(p: Parser, i: nat, e: Expr, lk: bool)
    requires i < |p.toks| && p.toks[i].Sym? && p.toks[i].p != ColonColon && !(lk && p.toks[i].p == Colon)
    requires OpenEnd(e) ==> p.toks[i].p !in {LParen, LBrace, Minus, Bang, Amp, AmpAmp, Colon}
    requires RightEnd(e) == Continue(None) ==> p.toks[i].p != Colon
    ensures FollowOk(p, i, e, lk)
  {
  }

  /** The end of the tokens follows anything */
  lemma EndFollows(p: Parser, e: Expr, lk: bool)
    ensures FollowOk(p, |p.toks|, e, lk)
  {
  }

  /** `d` binds at least as tightly as `c` */
  predicate Within(c: Ctx, d: Ctx) {
    d.level > c.level || (d.level == c.level && (d.right ==> c.right))
  }

  lemma ContinuesMono(p: Parser, i: nat, c: Ctx, d: Ctx)
    requires Within(c, d)
    ensures p.Continues(i, d) ==> p.Continues(i, c)
  {
  }

  lemma BinOpOfPunct(o: BinOp)
    ensures BinOpOf(BinPunct(o)) == Some(o)
  {
  }

  /** An operand of a postfix operator is followed by that operator's token */
  lemma TightFollows(p: Parser, i: nat, x: Expr, lk: bool)
    requires i < |p.toks| && p.toks[i].Sym? && p.toks[i].p != ColonColon && p.toks[i].p != Colon
    requires Printable(x) && Level(x) >= PrecCall
    ensures Follows(p, i, x, lk)
  {
    LevelEnd(x);
    SymFollows(p, i, x, lk);
  }

  /** The operand left of an infix operator that binds no tighter than it
      is not extended by that operator */
  lemma LeftFollows(p: Parser, i: nat, l: Expr, lev: int, lk: bool)
    requires i < |p.toks| && p.toks[i].Sym? && p.toks[i].p != ColonColon && p.toks[i].p != Colon
    requires Printable(l) && Level(l) >= lev >= PrecLogOr && !p.Continues(i, Ctx(lev, false))
    ensures Follows(p, i, l, lk)
  {
    LevelEnd(l);
    SymFollows(p, i, l, lk);
    match l {
      case Binary(o, _, _) => ContinuesMono(p, i, Ctx(lev, false), Ctx(BinLevel(o), false));
      case Unary(_, _) => ContinuesMono(p, i, Ctx(lev, false), Ctx(PrecUnary, false));
      case Borrow(_, _) => ContinuesMono(p, i, Ctx(lev, false), Ctx(PrecUnary, false));
      case _ =>
    }
  }

  /** A first token that does not glue onto a with-block expression stops
      the climbing loop after it, and is no `}` */
  lemma StartStops(p: Parser, m: nat, x: Expr)
    requires Printable(x) && m < |p.toks| && p.toks[m] == FirstTok(x) && !Glues(FirstTok(x))
    ensures !p.Continues(m, Top) && !p.SymAt(m, RBrace)
  {
    FirstToken(x);
  }

  /** A binary operator's own token does not continue an operand of its level */
  lemma OpStops(p: Parser, i: nat, o: BinOp)
    requires i < |p.toks| && p.toks[i] == Sym(BinPunct(o))
    ensures !p.Continues(i, Ctx(BinLevel(o), false))
    ensures p.toks[i].p != ColonColon && p.toks[i].p != Colon
  {
    BinOpOfPunct(o);
  }

  /** `;` continues nothing */
  lemma SemiStops(p: Parser, i: nat)
    requires i < |p.toks| && p.toks[i] == Sym(Semi)
    ensures !p.Continues(i, Top)
  {
  }

  /** `=` does not continue an operand of `||` */
  lemma EqStops(p: Parser, i: nat)
    requires i < |p.toks| && p.toks[i] == Sym(Eq)
    ensures !p.Continues(i, Ctx(PrecLogOr, false))
  {
  }

  // ---------------------------------------------------------------------
  // The hypotheses of the round trip, one bundle per kind of parse

  /** `e` is printed at `pos..n` and is read under `c`: it fits `c`, and the
      token at `n` neither continues `c` nor glues onto the end of `e` */
  predicate ExprReady(p: Parser, e: Expr, pos: nat, n: nat, c: Ctx, lk: bool) {
    && p.fieldLevel == PrecField && c.level <= PrecUnary
    && Printable(e) && Fits(e, c) && (lk || NoLabel(e))
    && Placed(p, e, pos, n) && n <= |p.toks| && !p.Continues(n, c) && FollowOk(p, n, e, lk)
  }

  /** `e` is printed at `pos..n` as the leftmost operand of what is parsed
      under `c`: the token at `n` ends its last operand */
  predicate LeadReady(p: Parser, e: Expr, pos: nat, n: nat, c: Ctx, lk: bool) {
    && p.fieldLevel == PrecField && c.level <= PrecUnary
    && Printable(e) && (lk || NoLabel(e)) && Placed(p, e, pos, n) && Follows(p, n, e, lk)
    && (!IsHead(e) ==> Absorbs(c, Level(e)))
  }

  /** An expression followed by `;` is read whole under `Top` */
  lemma SemiReady(p: Parser, e: Expr, pos: nat, m: nat)
    requires p.fieldLevel == PrecField && Printable(e) && At(p, pos, Print(e)) && m == pos + |Print(e)|
    requires m < |p.toks| && p.toks[m] == Sym(Semi)
    ensures ExprReady(p, e, pos, m, Top, true)
  {
    SymFollows(p, m, e, true);
    SemiStops(p, m);
  }

  lemma Unplace(p: Parser, e: Expr, pos: nat, n: nat)
    requires Placed(p, e, pos, n)
    ensures n == pos + |Print(e)| && At(p, pos, Print(e))
  {
  }

  lemma PlaceIntro(p: Parser, e: Expr, pos: nat, n: nat)
    requires n == pos + |Print(e)| && At(p, pos, Print(e))
    ensures Placed(p, e, pos, n)
  {
  }

  /** `{` continues nothing */
  lemma BraceStops(p: Parser, i: nat)
    requires i < |p.toks| && p.toks[i] == Sym(LBrace)
    ensures !p.Continues(i, Top)
  {
  }

  /** Every tree fits the top context */
  lemma TopFits(e: Expr)
    ensures Fits(e, Top) && Top.level <= PrecUnary
  {
  }

  /** A closing `)`, `}`, `,` or `;` continues nothing */
  lemma CloserStops(p: Parser, i: nat)
    requires i < |p.toks|
    requires p.toks[i] == Sym(RParen) || p.toks[i] == Sym(RBrace) || p.toks[i] == Sym(Comma) || p.toks[i] == Sym(Semi)
    ensures !p.Continues(i, Top)
  {
  }

  lemma NotSymAt(p: Parser, i: nat, q: Punct)
    requires i < |p.toks| && p.toks[i] != Sym(q)
    ensures !p.SymAt(i, q)
  {
  }

  /** A primary or prefix form printed at `pos..n` and ended there */
  predicate HeadReady(p: Parser, e: Expr, pos: nat, n: nat, lk: bool) {
    && p.fieldLevel == PrecField && Printable(e) && IsHead(e) && (lk || NoLabel(e))
    && Placed(p, e, pos, n) && Follows(p, n, e, lk)
  }

  /** `args` are printed at `pos`, then `)`, which ends right before `n` */
  predicate ArgsReady(p: Parser, args: seq<Expr>, pos: nat, n: nat, trailing: bool) {
    && p.fieldLevel == PrecField
    && (forall a | a in args :: Printable(a))
    && At(p, pos, PrintArgs(args, trailing))
    && n == pos + |PrintArgs(args, trailing)| + 1 && n <= |p.toks| && p.toks[n - 1] == Sym(RParen)
  }

  /** The block `b` is printed at `pos..n` */
  predicate BlockReady(p: Parser, b: Block, pos: nat, n: nat) {
    && p.fieldLevel == PrecField && PrintableBlock(b)
    && At(p, pos, PrintBlock(b)) && n == pos + |PrintBlock(b)|
  }

  /** The statements of `b` from the `k`-th on, its last expression and `}`
      are printed at `pos..n` */
  predicate StmtsReady(p: Parser, b: Block, k: nat, pos: nat, n: nat) {
    && p.fieldLevel == PrecField && PrintableBlock(b) && k <= |b.stmts|
    && At(p, pos, PrintBody(b, k)) && n == pos + |PrintBody(b, k)|
  }

  lemma ReadyLead(p: Parser, e: Expr, pos: nat, n: nat, c: Ctx, lk: bool)
    requires ExprReady(p, e, pos, n, c, lk) == true
    ensures LeadReady(p, e, pos, n, c, lk) && n <= |p.toks| && !p.Continues(n, c)
  {
    hide At, FollowOk, Printable, NoLabel, Print;
    match e {
      case Binary(o, _, _) => ContinuesMono(p, n, c, Ctx(BinLevel(o), false));
      case Assign(_, _) => ContinuesMono(p, n, c, Ctx(PrecAssign, true));
      case Unary(_, _) => ContinuesMono(p, n, c, Ctx(PrecUnary, false));
      case Borrow(_, _) => ContinuesMono(p, n, c, Ctx(PrecUnary, false));
      case Return(_) => ContinuesMono(p, n, c, Ctx(PrecAssign, false));
      case Break(_, _) => ContinuesMono(p, n, c, Ctx(PrecAssign, false));
      case _ =>
    }
  }

  /** A head in lead position is printed and closed off */
  lemma HeadSplit(p: Parser, e: Expr, pos: nat, n: nat, c: Ctx, lk: bool)
    requires IsHead(e) && LeadReady(p, e, pos, n, c, lk) == true
    ensures HeadReady(p, e, pos, n, lk) && n <= |p.toks|
  {
  }

  // ---------------------------------------------------------------------
  // Infix and postfix operators

  /** Where the two operands of an infix operator and the operator's token lie */
  lemma InfixPlaces(p: Parser, l: Expr, t: Token, r: Expr, pos: nat, n: nat) returns (i: nat)
    requires At(p, pos, Print(l) + [t] + Print(r)) && n == pos + |Print(l) + [t] + Print(r)|
    ensures Placed(p, l, pos, i) && Placed(p, r, i + 1, n)
    ensures i < |p.toks| && p.toks[i] == t && n <= |p.toks|
  {
    i := pos + |Print(l)|;
    hide Print, At;
    AtMid(p, pos, Print(l), t, Print(r));
    AtEnd(p, i + 1, Print(r));
  }

  lemma AtEnd(p: Parser, pos: nat, t: seq<Token>)
    requires At(p, pos, t)
    ensures pos + |t| <= |p.toks|
  {
  }

  /** Where the operands and the operator of a binary node lie */
  lemma BinarySplit(p: Parser, e: Expr, pos: nat, n: nat, c: Ctx, lk: bool) returns (i: nat)
    requires e.Binary? && LeadReady(p, e, pos, n, c, lk) == true
    ensures n <= |p.toks|
    ensures LeadReady(p, e.lhs, pos, i, c, lk)
    ensures ExprReady(p, e.rhs, i + 1, n, Ctx(BinLevel(e.op), false), lk)
    ensures i < |p.toks| && p.toks[i] == Sym(BinPunct(e.op)) && Absorbs(c, BinLevel(e.op))
  {
    var o, l, r := e.op, e.lhs, e.rhs;
    assert Print(e) == Print(l) + [Sym(BinPunct(o))] + Print(r);
    assert Printable(l) && Printable(r) && Level(l) >= BinLevel(o) && Fits(r, Ctx(BinLevel(o), false));
    assert (lk || NoLabel(l)) && (lk || NoLabel(r)) && RightEnd(e) == RightEnd(r);
    hide At, Parser.Continues, Print, Printable, NoLabel, RightEnd, FollowOk;
    i := InfixPlaces(p, l, Sym(BinPunct(o)), r, pos, n);
    OpStops(p, i, o);
    LeftFollows(p, i, l, BinLevel(o), lk);
    FollowRight(p, n, e, r, lk);
  }

  /** Where the operands of an assignment lie */
  lemma AssignSplit(p: Parser, e: Expr, pos: nat, n: nat, c: Ctx, lk: bool) returns (i: nat)
    requires e.Assign? && LeadReady(p, e, pos, n, c, lk) == true
    ensures n <= |p.toks|
    ensures LeadReady(p, e.lhs, pos, i, c, lk)
    ensures ExprReady(p, e.rhs, i + 1, n, Ctx(PrecAssign, true), lk)
    ensures i < |p.toks| && p.toks[i] == Sym(Eq) && Absorbs(c, PrecAssign)
  {
    var l, r := e.lhs, e.rhs;
    assert Print(e) == Print(l) + [Sym(Eq)] + Print(r);
    assert Printable(l) && Printable(r) && Level(l) > PrecAssign;
    assert (lk || NoLabel(l)) && (lk || NoLabel(r)) && RightEnd(e) == RightEnd(r);
    hide At, Parser.Continues, Print, Printable, NoLabel, RightEnd, FollowOk;
    i := InfixPlaces(p, l, Sym(Eq), r, pos, n);
    EqStops(p, i);
    LeftFollows(p, i, l, PrecLogOr, lk);
    FollowRight(p, n, e, r, lk);
  }

  /** Where the callee, the parentheses and the arguments of a call lie */
  lemma CallPlaces(p: Parser, f: Expr, args: seq<Expr>, pos: nat, n: nat) returns (i: nat)
    requires Placed(p, Call(f, args), pos, n)
    ensures Placed(p, f, pos, i) && i < |p.toks| && p.toks[i] == Sym(LParen)
    ensures At(p, i + 1, PrintArgs(args, false)) && n == i + 1 + |PrintArgs(args, false)| + 1
    ensures n <= |p.toks| && p.toks[n - 1] == Sym(RParen)
  {
    var pf, pa := Print(f), PrintArgs(args, false);
    i := pos + |pf|;
    CallParts(f, args);
    hide Print, PrintArgs, At;
    AtEnclosed(p, pos, pf, Sym(LParen), pa, Sym(RParen));
  }

  /** How a call prints */
  lemma CallParts(f: Expr, args: seq<Expr>)
    ensures Print(Call(f, args)) == Print(f) + [Sym(LParen)] + PrintArgs(args, false) + [Sym(RParen)]
  {
  }

  /** Where the callee and the arguments of a call lie */
  lemma CallSplit(p: Parser, e: Expr, pos: nat, n: nat, c: Ctx, lk: bool) returns (i: nat)
    requires e.Call? && LeadReady(p, e, pos, n, c, lk) == true
    ensures LeadReady(p, e.callee, pos, i, c, lk)
    ensures ArgsReady(p, e.args, i + 1, n, false)
    ensures i < |p.toks| && p.toks[i] == Sym(LParen) && Absorbs(c, PrecCall) && n <= |p.toks|
  {
    assert Printable(e.callee) && Level(e.callee) >= PrecCall && forall a | a in e.args :: Printable(a);
    assert lk || NoLabel(e.callee);
    hide At, Parser.Continues, Print, Printable, PrintArgs, NoLabel, FollowOk;
    i := CallPlaces(p, e.callee, e.args, pos, n);
    TightFollows(p, i, e.callee, lk);
  }

  /** Where the operand and the name of a field access lie */
  lemma FieldSplit(p: Parser, e: Expr, pos: nat, n: nat, c: Ctx, lk: bool) returns (i: nat)
    requires e.Field? && LeadReady(p, e, pos, n, c, lk) == true
    ensures LeadReady(p, e.e, pos, i, c, lk)
    ensures i + 1 < |p.toks| && p.toks[i] == Sym(Dot) && p.toks[i + 1] == Word(e.field)
    ensures n == i + 2 && Absorbs(c, p.fieldLevel)
  {
    var x := e.e;
    assert Print(e) == Print(x) + [Sym(Dot), Word(e.field)];
    assert Printable(x) && Level(x) >= PrecCall && (lk || NoLabel(x));
    hide At, Parser.Continues, Print, Printable, NoLabel, FollowOk;
    i := pos + |Print(x)|;
    AtSplit(p, pos, Print(x), [Sym(Dot), Word(e.field)]);
    AtTwo(p, i, Sym(Dot), Word(e.field));
    TightFollows(p, i, x, lk);
  }

  /** Where the operand of a dereference lies */
  lemma DerefSplit(p: Parser, e: Expr, pos: nat, n: nat, c: Ctx, lk: bool) returns (i: nat)
    requires e.Deref? && LeadReady(p, e, pos, n, c, lk) == true
    ensures LeadReady(p, e.e, pos, i, c, lk)
    ensures i < |p.toks| && p.toks[i] == Sym(DotStar) && n == i + 1 && Absorbs(c, p.fieldLevel)
  {
    var x := e.e;
    assert Print(e) == Print(x) + [Sym(DotStar)];
    assert Printable(x) && Level(x) >= PrecCall && (lk || NoLabel(x));
    hide At, Parser.Continues, Print, Printable, NoLabel, FollowOk;
    i := pos + |Print(x)|;
    AtSplit(p, pos, Print(x), [Sym(DotStar)]);
    AtOne(p, i, Sym(DotStar));
    TightFollows(p, i, x, lk);
  }

  /** An argument is followed by `,` or `)` */
  lemma ArgReady(p: Parser, a: Expr, pos: nat, m: nat)
    requires p.fieldLevel == PrecField && Printable(a) && Placed(p, a, pos, m)
    requires m < |p.toks| && (p.toks[m] == Sym(Comma) || p.toks[m] == Sym(RParen))
    ensures ExprReady(p, a, pos, m, Top, true) && WfExpr(a) && !p.SymAt(pos, RParen)
  {
    hide At, Print, Printable, FollowOk, OpenEnd, RightEnd, WfExpr;
    PlacedHead(p, a, pos, m);
    FirstToken(a);
    PrintableWf(a);
    SymFollows(p, m, a, true);
  }

  lemma ArgsEmpty(p: Parser, pos: nat, n: nat, trailing: bool)
    requires ArgsReady(p, [], pos, n, trailing) == true
    ensures pos < |p.toks| && p.toks[pos] == Sym(RParen) && n == pos + 1
  {
  }

  /** Where the first argument and its separator lie */
  lemma ArgsSplit(p: Parser, args: seq<Expr>, pos: nat, n: nat, trailing: bool) returns (m: nat)
    requires args != [] && ArgsReady(p, args, pos, n, trailing) == true
    ensures p.fieldLevel == PrecField && Printable(args[0]) && Placed(p, args[0], pos, m)
    ensures m < |p.toks| && (p.toks[m] == Sym(Comma) || p.toks[m] == Sym(RParen))
    ensures p.toks[m] == Sym(RParen) ==> |args| == 1 && n == m + 1
    ensures p.toks[m] == Sym(Comma) ==> ArgsReady(p, args[1..], m + 1, n, trailing)
  {
    hide At, Print, Printable;
    var a := args[0];
    var sepr: seq<Token> := if |args| == 1 && !trailing then [] else [Sym(Comma)];
    var rest := PrintArgs(args[1..], trailing);
    assert PrintArgs(args, trailing) == Print(a) + (sepr + rest);
    AtSplit(p, pos, Print(a), sepr + rest);
    m := pos + |Print(a)|;
    if sepr != [] {
      AtSplit(p, m, [Sym(Comma)], rest);
      AtOne(p, m, Sym(Comma));
      assert forall b | b in args[1..] :: b in args;
    }
  }

  // ---------------------------------------------------------------------
  // Primary and prefix forms

  /** How a parenthesized expression prints */
  lemma ParenParts(e: Expr)
    requires e.Paren?
    ensures Print(e) == [Sym(LParen)] + Print(e.e) + [Sym(RParen)]
    ensures Printable(e) ==> Printable(e.e) && Fits(e.e, Top)
    ensures Top.level <= PrecUnary
  {
  }

  /** Where the operand of a parenthesized expression lies */
  lemma ParenSplit(p: Parser, e: Expr, pos: nat, n: nat)
    requires e.Paren? && p.fieldLevel == PrecField && Printable(e) && Placed(p, e, pos, n)
    ensures ExprReady(p, e.e, pos + 1, n - 1, Top, true)
    ensures pos < n - 1 < |p.toks| && p.toks[pos] == Sym(LParen) && p.toks[n - 1] == Sym(RParen)
  {
    var x := e.e;
    hide *;
    Unplace(p, e, pos, n);
    ParenParts(e);
    AtSplit(p, pos, [Sym(LParen)] + Print(x), [Sym(RParen)]);
    AtSplit(p, pos, [Sym(LParen)], Print(x));
    AtOne(p, pos, Sym(LParen));
    AtOne(p, pos + 1 + |Print(x)|, Sym(RParen));
    SymFollows(p, n - 1, x, true);
    CloserStops(p, n - 1);
    ReadyIntro(p, x, pos + 1, n - 1, Top, true);
  }

  /** How a prefix node prints, and what its operand inherits from it */
  lemma PrefixParts(e: Expr)
    requires e.Unary? || e.Borrow?
    ensures e.Unary? ==> Print(e) == [Sym(UnPunct(e.uop))] + Print(e.e)
    ensures e.Borrow? ==> Print(e) == [Sym(Amp)] + (if e.isMut then [Word("mut")] else []) + Print(e.e)
    ensures Printable(e) ==> Printable(e.e) && Fits(e.e, Ctx(PrecUnary, false))
    ensures NoLabel(e) ==> NoLabel(e.e)
    ensures RightEnd(e) == RightEnd(e.e)
  {
  }

  /** The parts of a `HeadReady` bundle */
  lemma HeadParts(p: Parser, e: Expr, pos: nat, n: nat, lk: bool)
    requires HeadReady(p, e, pos, n, lk)
    ensures p.fieldLevel == PrecField && Printable(e) && (lk || NoLabel(e))
    ensures n == pos + |Print(e)| && At(p, pos, Print(e)) && n <= |p.toks| && FollowOk(p, n, e, lk)
    ensures (e.Unary? || e.Borrow?) ==> !p.Continues(n, Ctx(PrecUnary, false))
  {
  }

  /** The parts of an `ExprReady` bundle, put together */
  lemma ReadyIntro(p: Parser, e: Expr, pos: nat, n: nat, c: Ctx, lk: bool)
    requires p.fieldLevel == PrecField && c.level <= PrecUnary
    requires Printable(e) && Fits(e, c) && (lk || NoLabel(e))
    requires n == pos + |Print(e)| && At(p, pos, Print(e)) && n <= |p.toks| && !p.Continues(n, c) && FollowOk(p, n, e, lk)
    ensures ExprReady(p, e, pos, n, c, lk)
  {
  }

  /** Where the operand of `-` or `!` lies */
  lemma UnarySplit(p: Parser, e: Expr, pos: nat, n: nat, lk: bool)
    requires e.Unary? && HeadReady(p, e, pos, n, lk) == true
    ensures ExprReady(p, e.e, pos + 1, n, Ctx(PrecUnary, false), lk)
    ensures pos < |p.toks| && p.toks[pos] == Sym(UnPunct(e.uop))
  {
    var x := e.e;
    hide *;
    HeadParts(p, e, pos, n, lk);
    PrefixParts(e);
    AtSplit(p, pos, [Sym(UnPunct(e.uop))], Print(x));
    AtOne(p, pos, Sym(UnPunct(e.uop)));
    FollowRight(p, n, e, x, lk);
    ReadyIntro(p, x, pos + 1, n, Ctx(PrecUnary, false), lk);
  }

  /** Where the operand of `&` or `& mut` lies: it starts at `j` */
  lemma BorrowSplit(p: Parser, e: Expr, pos: nat, n: nat, lk: bool) returns (j: nat)
    requires e.Borrow? && HeadReady(p, e, pos, n, lk) == true
    ensures ExprReady(p, e.e, j, n, Ctx(PrecUnary, false), lk)
    ensures pos < |p.toks| && p.toks[pos] == Sym(Amp)
    ensures p.KeywordAt(pos + 1, "mut") == e.isMut && j == if e.isMut then pos + 2 else pos + 1
  {
    var x := e.e;
    var head: seq<Token> := [Sym(Amp)] + (if e.isMut then [Word("mut")] else []);
    j := pos + |head|;
    hide *;
    PrefixParts(e);
    AtSplit(p, pos, head, Print(x));
    AtHead(p, pos, head);
    if e.isMut {
      AtSplit(p, pos, [Sym(Amp)], [Word("mut")]);
      AtOne(p, pos + 1, Word("mut"));
    } else {
      PlacedHead(p, x, j, n);
      FirstToken(x);
    }
    FollowRight(p, n, e, x, lk);
  }

  /** Where the root word and the segments of a path lie */
  lemma PathSplit(p: Parser, e: Expr, pos: nat, n: nat, lk: bool)
    requires e.PathE? && HeadReady(p, e, pos, n, lk) == true
    ensures pos < |p.toks| && p.toks[pos] == Word(RootWord(e.root))
    ensures At(p, pos + 1, PrintSegs(e.segs)) && n == pos + 1 + |PrintSegs(e.segs)|
    ensures pos + 1 < |p.toks| ==> !p.toks[pos + 1].Str? && !(lk && p.toks[pos + 1] == Sym(Colon))
    ensures n <= |p.toks| && !p.SymAt(n, ColonColon)
  {
    var w := RootWord(e.root);
    assert Print(e) == [Word(w)] + PrintSegs(e.segs);
    hide At, Print;
    AtSplit(p, pos, [Word(w)], PrintSegs(e.segs));
    AtOne(p, pos, Word(w));
    if e.segs != [] {
      AtSplit(p, pos + 1, [Sym(ColonColon), Word(e.segs[0])], PrintSegs(e.segs[1..]));
      AtSplit(p, pos + 1, [Sym(ColonColon)], [Word(e.segs[0])]);
      AtOne(p, pos + 1, Sym(ColonColon));
    }
  }

  /** Where the first segment of a path tail lies */
  lemma SegsSplit(p: Parser, pos: nat, segs: seq<string>)
    requires segs != [] && At(p, pos, PrintSegs(segs))
    ensures pos + 1 < |p.toks| && p.toks[pos] == Sym(ColonColon) && p.toks[pos + 1] == Word(segs[0])
    ensures At(p, pos + 2, PrintSegs(segs[1..])) && |PrintSegs(segs)| == 2 + |PrintSegs(segs[1..])|
  {
    hide At;
    AtSplit(p, pos, [Sym(ColonColon), Word(segs[0])], PrintSegs(segs[1..]));
    AtTwo(p, pos, Sym(ColonColon), Word(segs[0]));
  }

  /** Where the operand of `return` lies, or that nothing that could be one follows */
  lemma ReturnSplit(p: Parser, e: Expr, pos: nat, n: nat, lk: bool)
    requires e.Return? && HeadReady(p, e, pos, n, lk) == true
    ensures pos < |p.toks| && p.toks[pos] == Word("return")
    ensures e.value.Some? ==> ExprReady(p, e.value.value, pos + 1, n, Ctx(PrecAssign, false), lk)
    ensures e.value.Some? ==> p.StartsExpr(pos + 1)
    ensures e.value.None? ==> n == pos + 1 && !p.StartsExpr(pos + 1)
  {
    if e.value.Some? {
      var x := e.value.value;
      assert Print(e) == [Word("return")] + Print(x);
      assert Printable(x) && Fits(x, Ctx(PrecAssign, false)) && (lk || NoLabel(x));
      assert RightEnd(e) == RightEnd(x);
      hide At, Print, Printable, NoLabel, RightEnd, FollowOk, Parser.Continues;
      AtSplit(p, pos, [Word("return")], Print(x));
      AtOne(p, pos, Word("return"));
      PlacedHead(p, x, pos + 1, n);
      FirstToken(x);
      FollowRight(p, n, e, x, lk);
    } else {
      assert Print(e) == [Word("return")];
      AtOne(p, pos, Word("return"));
    }
  }

  /** Where the optional label of `break` lies: the operand, if any, starts at `j` */
  lemma BreakLabelSplit(p: Parser, e: Expr, pos: nat, n: nat) returns (j: nat)
    requires e.Break? && Placed(p, e, pos, n)
    ensures pos < |p.toks| && p.toks[pos] == Word("break")
    ensures e.target.Some? ==> pos + 2 < |p.toks| && p.toks[pos + 1] == Sym(Colon)
    ensures e.target.Some? ==> p.toks[pos + 2] == Word(e.target.value) && j == pos + 3
    ensures e.target.None? ==> j == pos + 1
    ensures e.value.Some? ==> Placed(p, e.value.value, j, n)
    ensures e.value.None? ==> n == j
  {
    var lab: seq<Token> := if e.target.Some? then [Sym(Colon), Word(e.target.value)] else [];
    var val := if e.value.Some? then Print(e.value.value) else [];
    j := pos + 1 + |lab|;
    BreakParts(e);
    hide *;
    Unplace(p, e, pos, n);
    AtCat3(p, pos, [Word("break")], lab, val);
    AtOne(p, pos, Word("break"));
    if e.target.Some? {
      AtTwo(p, pos + 1, Sym(Colon), Word(e.target.value));
    }
    if e.value.Some? {
      PlaceIntro(p, e.value.value, j, n);
    }
  }

  /** How `break` prints */
  lemma BreakParts(e: Expr)
    requires e.Break?
    ensures Print(e) == [Word("break")] + (if e.target.Some? then [Sym(Colon), Word(e.target.value)] else [])
                        + (if e.value.Some? then Print(e.value.value) else [])
  {
  }

  /** Where the operand of `break` lies, or that nothing that could be one follows */
  lemma BreakSplit(p: Parser, e: Expr, pos: nat, n: nat, lk: bool) returns (j: nat)
    requires e.Break? && HeadReady(p, e, pos, n, lk) == true
    ensures pos < |p.toks| && p.toks[pos] == Word("break")
    ensures p.SymAt(pos + 1, Colon) == e.target.Some?
    ensures e.target.Some? ==> p.AnyWordAt(pos + 2) && p.toks[pos + 2].w == e.target.value && j == pos + 3
    ensures e.target.None? ==> j == pos + 1
    ensures e.value.Some? ==> ExprReady(p, e.value.value, j, n, Ctx(PrecAssign, false), lk) && p.StartsExpr(j)
    ensures e.value.None? ==> n == j && !p.StartsExpr(j)
  {
    j := BreakLabelSplit(p, e, pos, n);
    if e.value.Some? {
      var x := e.value.value;
      assert Printable(x) && Fits(x, Ctx(PrecAssign, false)) && (lk || NoLabel(x));
      assert RightEnd(e) == RightEnd(x);
      hide At, Print, Printable, NoLabel, RightEnd, FollowOk, Parser.Continues;
      PlacedHead(p, x, j, n);
      FirstToken(x);
      FollowRight(p, n, e, x, lk);
    }
  }

  /** Where the optional label of `continue` lies */
  lemma ContinueSplit(p: Parser, e: Expr, pos: nat, n: nat, lk: bool)
    requires e.Continue? && HeadReady(p, e, pos, n, lk) == true
    ensures pos < |p.toks| && p.toks[pos] == Word("continue")
    ensures e.target.Some? ==> n == pos + 3 && pos + 2 < |p.toks|
    ensures e.target.Some? ==> p.toks[pos + 1] == Sym(Colon) && p.toks[pos + 2] == Word(e.target.value)
    ensures e.target.None? ==> n == pos + 1 && !p.SymAt(pos + 1, Colon)
  {
    if e.target.Some? {
      assert Print(e) == [Word("continue")] + [Sym(Colon), Word(e.target.value)];
      AtSplit(p, pos, [Word("continue")], [Sym(Colon), Word(e.target.value)]);
      AtOne(p, pos, Word("continue"));
      AtTwo(p, pos + 1, Sym(Colon), Word(e.target.value));
    } else {
      assert Print(e) == [Word("continue")];
      AtOne(p, pos, Word("continue"));
    }
  }

  // ---------------------------------------------------------------------
  // Forms with blocks

  /** A keyword, then what follows it */
  lemma KeywordSplit(p: Parser, pos: nat, w: string, rest: seq<Token>)
    requires At(p, pos, [Word(w)] + rest)
    ensures pos < |p.toks| && p.toks[pos] == Word(w) && At(p, pos + 1, rest)
  {
    AtSplit(p, pos, [Word(w)], rest);
    AtOne(p, pos, Word(w));
  }

  /** A block begins with `{` */
  lemma BlockHead(p: Parser, b: Block, pos: nat, n: nat)
    requires BlockReady(p, b, pos, n) == true
    ensures pos < |p.toks| && p.toks[pos] == Sym(LBrace) && n <= |p.toks|
  {
    AtHead(p, pos, PrintBlock(b));
  }

  /** A condition printed after `head` and before a block is read under the top context */
  lemma CondSplit(p: Parser, head: seq<Token>, c: Expr, b: Block, pos: nat, n: nat) returns (m: nat)
    requires p.fieldLevel == PrecField && Printable(c) && !OpenEnd(c) && PrintableBlock(b)
    requires At(p, pos, head + Print(c) + PrintBlock(b)) && n == pos + |head + Print(c) + PrintBlock(b)|
    ensures At(p, pos, head) && ExprReady(p, c, pos + |head|, m, Top, true) && BlockReady(p, b, m, n)
    ensures m == pos + |head| + |Print(c)|
  {
    m := pos + |head| + |Print(c)|;
    hide Print, PrintBlock, Printable, PrintableBlock, FollowOk, OpenEnd, Fits, Parser.Continues;
    AtSplit(p, pos, head + Print(c), PrintBlock(b));
    AtSplit(p, pos, head, Print(c));
    BlockHead(p, b, m, n);
    SymFollows(p, m, c, true);
    BraceStops(p, m);
    TopFits(c);
  }

  lemma BlockIntro(p: Parser, b: Block, pos: nat, n: nat)
    requires p.fieldLevel == PrecField && PrintableBlock(b) && At(p, pos, PrintBlock(b)) && n == pos + |PrintBlock(b)|
    ensures BlockReady(p, b, pos, n)
  {
  }

  /** Where the body of `loop` lies */
  lemma LoopSplit(p: Parser, e: Expr, pos: nat, n: nat)
    requires e.Loop? && p.fieldLevel == PrecField && Printable(e) && Placed(p, e, pos, n)
    ensures pos < |p.toks| && p.toks[pos] == Word("loop") && BlockReady(p, e.body, pos + 1, n)
  {
    assert Print(e) == [Word("loop")] + PrintBlock(e.body);
    hide Print, PrintBlock;
    KeywordSplit(p, pos, "loop", PrintBlock(e.body));
  }

  /** Where the condition and the body of `while` lie */
  lemma WhileSplit(p: Parser, e: Expr, pos: nat, n: nat) returns (m: nat)
    requires e.While? && p.fieldLevel == PrecField && Printable(e) && Placed(p, e, pos, n)
    ensures pos < |p.toks| && p.toks[pos] == Word("while") && pos < m
    ensures ExprReady(p, e.cond, pos + 1, m, Top, true) && BlockReady(p, e.body, m, n)
  {
    var c, b := e.cond, e.body;
    assert Print(e) == [Word("while")] + Print(c) + PrintBlock(b);
    assert Printable(c) && !OpenEnd(c) && PrintableBlock(b);
    hide Print, PrintBlock, Printable, PrintableBlock, OpenEnd;
    m := CondSplit(p, [Word("while")], c, b, pos, n);
    AtOne(p, pos, Word("while"));
  }

  /** Where the binder, the iterator and the body of `for` lie */
  lemma ForSplit(p: Parser, e: Expr, pos: nat, n: nat) returns (m: nat)
    requires e.For? && p.fieldLevel == PrecField && PrintableFor(e) && Placed(p, e, pos, n)
    ensures pos + 2 < |p.toks| && p.toks[pos] == Word("for")
    ensures p.toks[pos + 1] == Word(e.binder) && p.toks[pos + 2] == Word("in")
    ensures ExprReady(p, e.iter, pos + 3, m, Top, true) && BlockReady(p, e.body, m, n)
  {
    var it, b := e.iter, e.body;
    assert Print(e) == [Word("for"), Word(e.binder), Word("in")] + Print(it) + PrintBlock(b);
    assert Printable(it) && !OpenEnd(it) && PrintableBlock(b);
    hide Print, PrintBlock, Printable, PrintableBlock, OpenEnd;
    m := CondSplit(p, [Word("for"), Word(e.binder), Word("in")], it, b, pos, n);
    AtThree(p, pos, Word("for"), Word(e.binder), Word("in"));
  }

  lemma AtThree(p: Parser, pos: nat, t: Token, u: Token, v: Token)
    requires At(p, pos, [t, u, v])
    ensures pos + 2 < |p.toks| && p.toks[pos] == t && p.toks[pos + 1] == u && p.toks[pos + 2] == v
  {
    assert p.toks[pos..pos + 3][0] == t && p.toks[pos..pos + 3][1] == u && p.toks[pos..pos + 3][2] == v;
  }

  /** How `if` prints, and what its parts inherit from it */
  lemma IfParts(e: Expr)
    requires e.If?
    ensures Print(e) == [Word("if")] + Print(e.cond) + PrintBlock(e.thn)
                        + (if e.els.Some? then [Word("else")] + Print(e.els.value) else [])
    ensures Printable(e) ==> Printable(e.cond) && !OpenEnd(e.cond) && PrintableBlock(e.thn)
    ensures Printable(e) && e.els.Some? ==> (e.els.value.If? || e.els.value.BlockE?) && Printable(e.els.value)
  {
  }

  /** Where the condition and the `then` block of `if` lie; the `else` part starts at `k` */
  lemma IfSplit(p: Parser, e: Expr, pos: nat, n: nat) returns (m: nat, k: nat)
    requires e.If? && p.fieldLevel == PrecField && Printable(e) && Placed(p, e, pos, n)
    ensures pos < |p.toks| && p.toks[pos] == Word("if") && pos < m
    ensures ExprReady(p, e.cond, pos + 1, m, Top, true) && BlockReady(p, e.thn, m, k)
    ensures e.els.Some? ==> (e.els.value.If? || e.els.value.BlockE?) && Printable(e.els.value)
    ensures e.els.None? ==> n == k
    ensures e.els.Some? ==> At(p, k, [Word("else")] + Print(e.els.value)) && n == k + 1 + |Print(e.els.value)|
  {
    var c, t := e.cond, e.thn;
    var tail := if e.els.Some? then [Word("else")] + Print(e.els.value) else [];
    IfParts(e);
    var head: seq<Token> := [Word("if")];
    k := pos + |head + Print(c) + PrintBlock(t)|;
    hide *;
    Unplace(p, e, pos, n);
    AtSplit(p, pos, head + Print(c) + PrintBlock(t), tail);
    m := CondSplit(p, head, c, t, pos, k);
    AtOne(p, pos, Word("if"));
  }

  /** Where the `else` branch lies: another `if`, or a block */
  lemma ElseSplit(p: Parser, x: Expr, k: nat, n: nat)
    requires (x.If? || x.BlockE?) && p.fieldLevel == PrecField && Printable(x)
    requires At(p, k, [Word("else")] + Print(x)) && n == k + 1 + |Print(x)|
    ensures k + 1 < |p.toks| && p.KeywordAt(k, "else") && p.KeywordAt(k + 1, "if") == x.If?
    ensures x.If? ==> Placed(p, x, k + 1, n)
    ensures x.BlockE? ==> BlockReady(p, x.block, k + 1, n)
  {
    KeywordSplit(p, k, "else", Print(x));
    PlacedHead(p, x, k + 1, n);
  }

  /** The last branch of an `if` ends where the `if` does */
  lemma ElseFollows(p: Parser, e: Expr, n: nat, lk: bool)
    requires e.If? && e.els.Some? && FollowOk(p, n, e, lk)
    ensures FollowOk(p, n, e.els.value, lk)
  {
    FollowRight(p, n, e, e.els.value, lk);
  }

  /** An `if` with no `else` is not followed by `else` */
  lemma IfEndFollows(p: Parser, e: Expr, n: nat, lk: bool)
    requires e.If? && e.els.None? && FollowOk(p, n, e, lk)
    ensures !p.KeywordAt(n, "else")
  {
  }

  /** Where the name and the labeled loop or block lie */
  lemma LabeledSplit(p: Parser, e: Expr, pos: nat, n: nat)
    requires e.Labeled? && p.fieldLevel == PrecField && Printable(e) && Placed(p, e, pos, n)
    ensures pos + 2 < |p.toks| && p.toks[pos] == Word(e.name) && p.toks[pos + 1] == Sym(Colon)
    ensures Placed(p, e.inner, pos + 2, n) && p.LabelBodyAt(pos + 2) && PlainName(e.name)
    ensures e.inner.For? ==> PrintableFor(e.inner)
    ensures !e.inner.For? ==> Printable(e.inner)
  {
    var x := e.inner;
    assert Print(e) == [Word(e.name), Sym(Colon)] + Print(x);
    AtSplit(p, pos, [Word(e.name), Sym(Colon)], Print(x));
    AtTwo(p, pos, Word(e.name), Sym(Colon));
    if x.BlockE? {
      assert Print(x) == [Sym(LBrace)] + PrintBody(x.block, 0);
    }
    AtHead(p, pos + 2, Print(x));
  }

  // ---------------------------------------------------------------------
  // Blocks

  /** After `{` come the statements */
  lemma BlockOpen(p: Parser, b: Block, pos: nat, n: nat)
    requires BlockReady(p, b, pos, n) == true
    ensures pos < |p.toks| && p.toks[pos] == Sym(LBrace) && StmtsReady(p, b, 0, pos + 1, n)
  {
    KeywordlessSplit(p, pos, Sym(LBrace), PrintBody(b, 0));
  }

  lemma KeywordlessSplit(p: Parser, pos: nat, t: Token, rest: seq<Token>)
    requires At(p, pos, [t] + rest)
    ensures pos < |p.toks| && p.toks[pos] == t && At(p, pos + 1, rest)
  {
    AtSplit(p, pos, [t], rest);
    AtOne(p, pos, t);
  }

  /** The first token of the statements from index `j` on */
  function NextTok(b: Block, j: nat): Token
    requires j < |b.stmts| || b.last.Some?
  {
    if j < |b.stmts| then FirstTok(b.stmts[j]) else FirstTok(b.last.value)
  }

  /** The printed statements from a nonempty index `j` on begin with `NextTok` */
  lemma BodyHead(b: Block, j: nat)
    requires PrintableBlock(b) && (j < |b.stmts| || b.last.Some?)
    ensures |PrintBody(b, j)| > 0 && PrintBody(b, j)[0] == NextTok(b, j)
  {
    if j < |b.stmts| {
      FirstToken(b.stmts[j]);
    } else {
      FirstToken(b.last.value);
    }
  }

  /** A with-block statement: the next statement begins right after it */
  lemma WithStmtSplit(p: Parser, b: Block, k: nat, pos: nat, n: nat) returns (m: nat)
    requires StmtsReady(p, b, k, pos, n) == true && k < |b.stmts| && WithBlock(b.stmts[k])
    ensures ExprReady(p, b.stmts[k], pos, m, Top, true) && pos < |p.toks| && !p.SymAt(pos, RBrace)
    ensures !p.SymAt(m, RBrace) && StmtsReady(p, b, k + 1, m, n)
  {
    hide *;
    var s := b.stmts[k];
    m := pos + |Print(s)|;
    StmtsUnready(p, b, k, pos, n);
    StmtParts(b, k);
    WithStmt(p, s, m);
    AtSplit(p, pos, Print(s), PrintBody(b, k + 1));
    AtStart(p, s, pos);
    NextStops(p, m, b, k + 1);
    StmtsIntro(p, b, k + 1, m, n);
    ReadyIntro(p, s, pos, m, Top, true);
  }

  lemma StmtsUnready(p: Parser, b: Block, k: nat, pos: nat, n: nat)
    requires StmtsReady(p, b, k, pos, n)
    ensures p.fieldLevel == PrecField && PrintableBlock(b) && k <= |b.stmts|
    ensures At(p, pos, PrintBody(b, k)) && n == pos + |PrintBody(b, k)|
  {
  }

  lemma StmtsIntro(p: Parser, b: Block, k: nat, pos: nat, n: nat)
    requires p.fieldLevel == PrecField && PrintableBlock(b) && k <= |b.stmts|
    requires At(p, pos, PrintBody(b, k)) && n == pos + |PrintBody(b, k)|
    ensures StmtsReady(p, b, k, pos, n)
  {
  }

  /** How the statement at index `k` prints, and what it inherits from its block */
  lemma StmtParts(b: Block, k: nat)
    requires k < |b.stmts|
    ensures PrintBody(b, k) == PrintStmt(b.stmts[k]) + PrintBody(b, k + 1)
    ensures PrintableBlock(b) ==> Printable(b.stmts[k]) && (WithBlock(b.stmts[k]) ==> NextOk(b, k + 1))
  {
  }

  /** A with-block statement prints as itself, fits anywhere and lets anything follow it */
  lemma WithStmt(p: Parser, s: Expr, m: nat)
    requires WithBlock(s)
    ensures PrintStmt(s) == Print(s) && Fits(s, Top) && Top.level <= PrecUnary && FollowOk(p, m, s, true)
  {
  }

  /** A printed tree begins with its first token, which is no `}` */
  lemma AtStart(p: Parser, e: Expr, pos: nat)
    requires Printable(e) && At(p, pos, Print(e))
    ensures pos < |p.toks| && p.toks[pos] == FirstTok(e) && !p.SymAt(pos, RBrace)
  {
    FirstToken(e);
    AtHead(p, pos, Print(e));
  }

  /** The statement after a with-block statement does not extend it */
  lemma NextStops(p: Parser, m: nat, b: Block, j: nat)
    requires PrintableBlock(b) && NextOk(b, j) && At(p, m, PrintBody(b, j))
    ensures m < |p.toks| && !p.Continues(m, Top) && !p.SymAt(m, RBrace)
  {
    BodyHead(b, j);
    AtHead(p, m, PrintBody(b, j));
    StartStops(p, m, if j < |b.stmts| then b.stmts[j] else b.last.value);
  }

  /** A statement that ends with `;` */
  lemma SemiStmtSplit(p: Parser, b: Block, k: nat, pos: nat, n: nat) returns (m: nat)
    requires StmtsReady(p, b, k, pos, n) == true && k < |b.stmts| && !WithBlock(b.stmts[k])
    ensures ExprReady(p, b.stmts[k], pos, m, Top, true) && pos < |p.toks| && !p.SymAt(pos, RBrace)
    ensures m < |p.toks| && p.toks[m] == Sym(Semi) && StmtsReady(p, b, k + 1, m + 1, n)
  {
    var s := b.stmts[k];
    hide Print, Printable, At, Parser.Continues, Fits, Level, NoLabel, FirstTok, FollowOk, OpenEnd, RightEnd;
    assert PrintBody(b, k) == Print(s) + [Sym(Semi)] + PrintBody(b, k + 1);
    assert Printable(s);
    m := pos + |Print(s)|;
    hide PrintBody, PrintStmt, PrintableBlock;
    AtMid(p, pos, Print(s), Sym(Semi), PrintBody(b, k + 1));
    PlacedHead(p, s, pos, m);
    SemiReady(p, s, pos, m);
  }

  /** The last expression, then `}` */
  lemma LastSplit(p: Parser, b: Block, pos: nat, n: nat)
    requires StmtsReady(p, b, |b.stmts|, pos, n) == true && b.last.Some?
    ensures ExprReady(p, b.last.value, pos, n - 1, Top, true) && !p.SymAt(pos, RBrace)
    ensures pos < n - 1 < |p.toks| && p.toks[n - 1] == Sym(RBrace)
  {
    var x := b.last.value;
    assert PrintBody(b, |b.stmts|) == Print(x) + [Sym(RBrace)];
    assert Printable(x);
    hide Print, PrintBody, Printable, FollowOk, OpenEnd, RightEnd;
    AtSplit(p, pos, Print(x), [Sym(RBrace)]);
    AtOne(p, pos + |Print(x)|, Sym(RBrace));
    PlacedHead(p, x, pos, n - 1);
    SymFollows(p, n - 1, x, true);
  }

  /** No last expression: only `}` is left */
  lemma CloseSplit(p: Parser, b: Block, pos: nat, n: nat)
    requires StmtsReady(p, b, |b.stmts|, pos, n) == true && b.last.None?
    ensures pos < |p.toks| && p.toks[pos] == Sym(RBrace) && n == pos + 1
  {
    AtOne(p, pos, Sym(RBrace));
  }

  // ---------------------------------------------------------------------
  // Types and items

  /** The type `t` is printed at `pos..n`, and `:` or `=` follows it */
  predicate TypeReady(p: Parser, t: TypeExpr, pos: nat, n: nat) {
    && p.fieldLevel == PrecField && PrintableType(t)
    && At(p, pos, PrintType(t)) && n == pos + |PrintType(t)|
    && n < |p.toks| && (p.toks[n] == Sym(Colon) || p.toks[n] == Sym(Eq))
  }

  /** A printed type begins with neither `:` nor `=` */
  lemma TypeHead(t: TypeExpr)
    requires PrintableType(t)
    ensures |PrintType(t)| > 0 && PrintType(t)[0] != Sym(Colon) && PrintType(t)[0] != Sym(Eq)
  {
    if t.TExpr? {
      FirstToken(t.e);
    }
  }

  /** A type that is an expression is read as one under `=`, where no label starts */
  lemma TypeSplit(p: Parser, t: TypeExpr, pos: nat, n: nat)
    requires t.TExpr? && TypeReady(p, t, pos, n) == true
    ensures ExprReady(p, t.e, pos, n, Ctx(PrecAssign, false), false)
    ensures !(p.AnyWordAt(pos) && p.toks[pos].w in PrimitiveTypes)
  {
    var e := t.e;
    assert PrintType(t) == Print(e);
    assert Printable(e) && !OpenEnd(e) && RightEnd(e) != Continue(None);
    hide At, Print, Printable, FollowOk, OpenEnd, RightEnd;
    PlacedHead(p, e, pos, n);
    SymFollows(p, n, e, false);
  }

  /** A primitive type is one word */
  lemma PrimSplit(p: Parser, t: TypeExpr, pos: nat, n: nat)
    requires t.Prim? && TypeReady(p, t, pos, n) == true
    ensures pos < |p.toks| && p.toks[pos] == Word(t.name) && t.name in PrimitiveTypes && n == pos + 1
  {
    AtOne(p, pos, Word(t.name));
  }

  /** The value of a definition is printed at `pos..n` with its terminator,
      and the next definition's name or the end follows */
  predicate ValueReady(p: Parser, v: Expr, pos: nat, n: nat) {
    && p.fieldLevel == PrecField && Printable(v)
    && At(p, pos, PrintStmt(v)) && n == pos + |PrintStmt(v)| && (n < |p.toks| ==> p.toks[n].Word?)
  }

  /** A with-block value stands alone */
  lemma WithValueSplit(p: Parser, v: Expr, pos: nat, n: nat)
    requires WithBlock(v) && ValueReady(p, v, pos, n) == true
    ensures ExprReady(p, v, pos, n, Top, true) && n <= |p.toks| && !p.SymAt(n, Semi)
  {
    assert PrintStmt(v) == Print(v);
    AtEnd(p, pos, Print(v));
  }

  /** Any other value ends with `;` */
  lemma SemiValueSplit(p: Parser, v: Expr, pos: nat, n: nat)
    requires !WithBlock(v) && ValueReady(p, v, pos, n) == true
    ensures ExprReady(p, v, pos, n - 1, Top, true) && pos < n && n - 1 < |p.toks| && p.toks[n - 1] == Sym(Semi)
  {
    var m := pos + |Print(v)|;
    hide Print, Printable, WithBlock;
    assert PrintStmt(v) == Print(v) + [Sym(Semi)];
    assert n == m + 1 && p.fieldLevel == PrecField && Printable(v) && At(p, pos, Print(v) + [Sym(Semi)]);
    hide *;
    AtSplit(p, pos, Print(v), [Sym(Semi)]);
    AtOne(p, m, Sym(Semi));
    SemiReady(p, v, pos, m);
  }

  /** The definition `it` is printed at `pos..n`, and the next definition's
      name or the end follows */
  predicate ItemReady(p: Parser, it: Item, pos: nat, n: nat) {
    && p.fieldLevel == PrecField && PrintableItem(it)
    && At(p, pos, PrintItem(it)) && n == pos + |PrintItem(it)| && (n < |p.toks| ==> p.toks[n].Word?)
  }

  /** How a definition prints, and what its parts inherit from it */
  lemma ItemParts(it: Item)
    ensures it.ty.None? ==>
              PrintItem(it) == [Word(it.name), Sym(Colon), Sym(if it.isConst then Colon else Eq)] + PrintStmt(it.value)
    ensures it.ty.Some? ==>
              PrintItem(it) == [Word(it.name), Sym(Colon)] + PrintType(it.ty.value)
                               + ([Sym(if it.isConst then Colon else Eq)] + PrintStmt(it.value))
    ensures PrintableItem(it) ==> Printable(it.value) && (it.ty.Some? ==> PrintableType(it.ty.value))
    ensures PrintableItem(it) && it.ty.Some? ==>
              |PrintType(it.ty.value)| > 0 && PrintType(it.ty.value)[0] != Sym(Colon) && PrintType(it.ty.value)[0] != Sym(Eq)
  {
    if PrintableItem(it) && it.ty.Some? {
      TypeHead(it.ty.value);
    }
  }

  /** Where the name, the type, the separator and the value of a definition
      lie; the separator is at `m` */
  lemma ItemSplit(p: Parser, it: Item, pos: nat, n: nat) returns (m: nat)
    requires ItemReady(p, it, pos, n) == true
    ensures pos + 1 < |p.toks| && p.toks[pos] == Word(it.name) && p.toks[pos + 1] == Sym(Colon)
    ensures it.ty.None? ==> m == pos + 2
    ensures it.ty.Some? ==> TypeReady(p, it.ty.value, pos + 2, m)
    ensures it.ty.Some? ==> !p.SymAt(pos + 2, Colon) && !p.SymAt(pos + 2, Eq)
    ensures m < |p.toks| && p.toks[m] == Sym(if it.isConst then Colon else Eq)
    ensures ValueReady(p, it.value, m + 1, n) && pos < n <= |p.toks|
  {
    var sepr := Sym(if it.isConst then Colon else Eq);
    var v := PrintStmt(it.value);
    hide *;
    ItemUnready(p, it, pos, n);
    ItemParts(it);
    if it.ty.None? {
      m := pos + 2;
      AtSplit(p, pos, [Word(it.name), Sym(Colon), sepr], v);
      AtThree(p, pos, Word(it.name), Sym(Colon), sepr);
    } else {
      var ty := PrintType(it.ty.value);
      m := pos + 2 + |ty|;
      AtCat3(p, pos, [Word(it.name), Sym(Colon)], ty, [sepr] + v);
      AtTwo(p, pos, Word(it.name), Sym(Colon));
      AtSplit(p, m, [sepr], v);
      AtOne(p, m, sepr);
      AtHead(p, pos + 2, ty);
      TypeIntro(p, it.ty.value, pos + 2, m);
      NotSymAt(p, pos + 2, Colon);
      NotSymAt(p, pos + 2, Eq);
    }
    AtEnd(p, m + 1, v);
    ValueIntro(p, it.value, m + 1, n);
  }

  lemma TypeIntro(p: Parser, t: TypeExpr, pos: nat, n: nat)
    requires p.fieldLevel == PrecField && PrintableType(t) && At(p, pos, PrintType(t)) && n == pos + |PrintType(t)|
    requires n < |p.toks| && (p.toks[n] == Sym(Colon) || p.toks[n] == Sym(Eq))
    ensures TypeReady(p, t, pos, n)
  {
  }

  lemma ValueIntro(p: Parser, v: Expr, pos: nat, n: nat)
    requires p.fieldLevel == PrecField && Printable(v) && At(p, pos, PrintStmt(v)) && n == pos + |PrintStmt(v)|
    requires n < |p.toks| ==> p.toks[n].Word?
    ensures ValueReady(p, v, pos, n)
  {
  }

  lemma ItemUnready(p: Parser, it: Item, pos: nat, n: nat)
    requires ItemReady(p, it, pos, n)
    ensures p.fieldLevel == PrecField && PrintableItem(it)
    ensures At(p, pos, PrintItem(it)) && n == pos + |PrintItem(it)| && (n < |p.toks| ==> p.toks[n].Word?)
  {
  }

  /** The definitions `its` are printed from `pos` to the end of the tokens */
  predicate ItemsReady(p: Parser, its: seq<Item>, pos: nat) {
    && p.fieldLevel == PrecField && PrintableItems(its)
    && At(p, pos, PrintItems(its)) && pos + |PrintItems(its)| == |p.toks|
  }

  /** How a nonempty list of definitions prints */
  lemma ItemsCons(its: seq<Item>)
    requires its != []
    ensures PrintItems(its) == PrintItem(its[0]) + PrintItems(its[1..])
    ensures PrintableItems(its) ==> PrintableItem(its[0]) && PrintableItems(its[1..])
    ensures |its| == 1 ==> PrintItems(its[1..]) == []
    ensures |its| > 1 ==> |PrintItems(its[1..])| > 0 && PrintItems(its[1..])[0] == Word(its[1].name)
  {
    var rest := its[1..];
    assert forall k | 0 <= k < |rest| :: rest[k] == its[k + 1];
    if rest != [] {
      assert PrintItems(rest) == PrintItem(rest[0]) + PrintItems(rest[1..]);
    }
  }

  /** The first definition, then the others */
  lemma ItemsSplit(p: Parser, its: seq<Item>, pos: nat) returns (m: nat)
    requires its != [] && ItemsReady(p, its, pos) == true
    ensures ItemReady(p, its[0], pos, m) && ItemsReady(p, its[1..], m)
  {
    var rest := its[1..];
    m := pos + |PrintItem(its[0])|;
    hide Print, Printable, PrintStmt, PrintType, PrintableType, At, PrintItem, PrintItems, PrintableItem, PrintableItems;
    ItemsCons(its);
    AtSplit(p, pos, PrintItem(its[0]), PrintItems(rest));
    if rest != [] {
      AtHead(p, m, PrintItems(rest));
    }
  }


  /** No definitions: the end of the tokens */
  lemma EmptyItems(p: Parser, its: seq<Item>, pos: nat)
    requires its == [] && ItemsReady(p, its, pos) == true
    ensures pos == |p.toks|
  {
  }

  lemma BlockReadyWf(p: Parser, b: Block, pos: nat, n: nat)
    requires BlockReady(p, b, pos, n) == true
    ensures WfBlock(b)
  {
    PrintableBlockWf(b);
  }
}

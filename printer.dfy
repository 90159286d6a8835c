// A printer from syntax trees back to tokens, and the trees it writes
// unambiguously. The round trip (roundtrip.dfy) proves that the parser
// inverts the printer on those trees; it is what pins down the precedence
// and associativity rules of grammar.js:10-41 and 181-231 and the statement
// rules of grammar.js:306-316: a tree is printable exactly when the rules put
// each operand and each statement where the tree has it.

module LunPrinter {
  import opened LunTokens
  import opened LunAst
  import opened LunParser

  // ---------------------------------------------------------------------
  // The printer

  /** The token of a prefix operator of `left_unary_expr` */
  function UnPunct(u: UnOp): Punct {
    if u == Neg then Minus else Bang
  }

  /** The word that spells the root of a path */
  function RootWord(root: PathRoot): string {
    if root.Orb? then "orb" else root.name
  }

  function Print(e: Expr): seq<Token>
    decreases e, 0
  {
    match e
    case BoolLit(b) => [Word(if b then "true" else "false")]
    case IntLitE(l) => [Int(l)]
    case StrLitE(tag, ps) => (if tag.Some? then [Word(tag.value)] else []) + [Str(ps)]
    case Null => [Word("null")]
    case PathE(root, segs) => [Word(RootWord(root))] + PrintSegs(segs)
    case Paren(x) => [Sym(LParen)] + Print(x) + [Sym(RParen)]
    case Binary(o, l, r) => Print(l) + [Sym(BinPunct(o))] + Print(r)
    case Assign(l, r) => Print(l) + [Sym(Eq)] + Print(r)
    case Unary(u, x) => [Sym(UnPunct(u))] + Print(x)
    case Borrow(m, x) => [Sym(Amp)] + (if m then [Word("mut")] else []) + Print(x)
    case Call(f, args) => Print(f) + [Sym(LParen)] + PrintArgs(args, false) + [Sym(RParen)]
    case Field(x, f) => Print(x) + [Sym(Dot), Word(f)]
    case Deref(x) => Print(x) + [Sym(DotStar)]
    case If(c, t, els) =>
      [Word("if")] + Print(c) + PrintBlock(t) + (if els.Some? then [Word("else")] + Print(els.value) else [])
    case Return(v) => [Word("return")] + (if v.Some? then Print(v.value) else [])
    case Break(t, v) =>
      [Word("break")] + (if t.Some? then [Sym(Colon), Word(t.value)] else [])
      + (if v.Some? then Print(v.value) else [])
    case Continue(t) => [Word("continue")] + (if t.Some? then [Sym(Colon), Word(t.value)] else [])
    case BlockE(b) => PrintBlock(b)
    case While(c, b) => [Word("while")] + Print(c) + PrintBlock(b)
    case Loop(b) => [Word("loop")] + PrintBlock(b)
    case For(v, it, b) => [Word("for"), Word(v), Word("in")] + Print(it) + PrintBlock(b)
    case Labeled(n, x) => [Word(n), Sym(Colon)] + Print(x)
  }

  /** The `::`-separated segments after the root of a path */
  function PrintSegs(segs: seq<string>): seq<Token> {
    if segs == [] then [] else [Sym(ColonColon), Word(segs[0])] + PrintSegs(segs[1..])
  }

  /** `sep(_expression, ',')`, with or without the trailing comma */
  function PrintArgs(args: seq<Expr>, trailing: bool): seq<Token>
    decreases args, 0
  {
    if args == [] then []
    else Print(args[0]) + (if |args| == 1 && !trailing then [] else [Sym(Comma)]) + PrintArgs(args[1..], trailing)
  }

  function PrintBlock(b: Block): seq<Token>
    decreases b, |b.stmts| + 1
  {
    [Sym(LBrace)] + PrintBody(b, 0)
  }

  /** A statement: a with-block expression stands alone, any other takes `;` */
  function PrintStmt(s: Expr): seq<Token>
    decreases s, 1
  {
    if WithBlock(s) then Print(s) else Print(s) + [Sym(Semi)]
  }

  /** The statements of `b` from the `k`-th on, its last expression and `}` */
  function PrintBody(b: Block, k: nat): seq<Token>
    decreases b, |b.stmts| - k
  {
    if k < |b.stmts| then PrintStmt(b.stmts[k]) + PrintBody(b, k + 1)
    else if b.last.Some? then Print(b.last.value) + [Sym(RBrace)]
    else [Sym(RBrace)]
  }

  function PrintType(t: TypeExpr): seq<Token> {
    match t
    case Prim(name) => [Word(name)]
    case TExpr(e) => Print(e)
  }

  /** `name : [type] (':' | '=') value`, then `;` unless the value has a block */
  function PrintItem(it: Item): seq<Token> {
    [Word(it.name), Sym(Colon)] + (if it.ty.Some? then PrintType(it.ty.value) else [])
    + [Sym(if it.isConst then Colon else Eq)] + PrintStmt(it.value)
  }

  function PrintItems(its: seq<Item>): seq<Token> {
    if its == [] then [] else PrintItem(its[0]) + PrintItems(its[1..])
  }

  // ---------------------------------------------------------------------
  // Where a printed tree begins and ends

  /** The first token of the printed tree */
  function FirstTok(e: Expr): Token {
    match e
    case Binary(_, l, _) => FirstTok(l)
    case Assign(l, _) => FirstTok(l)
    case Call(f, _) => FirstTok(f)
    case Field(x, _) => FirstTok(x)
    case Deref(x) => FirstTok(x)
    case BoolLit(b) => Word(if b then "true" else "false")
    case IntLitE(l) => Int(l)
    case StrLitE(tag, ps) => if tag.Some? then Word(tag.value) else Str(ps)
    case Null => Word("null")
    case PathE(root, _) => Word(RootWord(root))
    case Paren(_) => Sym(LParen)
    case Unary(u, _) => Sym(UnPunct(u))
    case Borrow(_, _) => Sym(Amp)
    case If(_, _, _) => Word("if")
    case Return(_) => Word("return")
    case Break(_, _) => Word("break")
    case Continue(_) => Word("continue")
    case BlockE(_) => Sym(LBrace)
    case While(_, _) => Word("while")
    case Loop(_) => Word("loop")
    case For(_, _, _) => Word("for")
    case Labeled(n, _) => Word(n)
  }

  /** The subtree whose tokens end the printed tree: the end of the right
      operand, of the prefix operand, of the last `else` branch */
  function RightEnd(e: Expr): Expr {
    match e
    case Binary(_, _, r) => RightEnd(r)
    case Assign(_, r) => RightEnd(r)
    case Unary(_, x) => RightEnd(x)
    case Borrow(_, x) => RightEnd(x)
    case Return(v) => if v.Some? then RightEnd(v.value) else e
    case Break(_, v) => if v.Some? then RightEnd(v.value) else e
    case If(_, _, els) => if els.Some? then RightEnd(els.value) else e
    case _ => e
  }

  /** The printed tree ends in a `return` or `break` with no operand, which
      would take a following expression as its operand */
  predicate OpenEnd(e: Expr) {
    RightEnd(e).Return? || RightEnd(e).Break?
  }

  // ---------------------------------------------------------------------
  // Which trees print unambiguously

  /** The precedence at which a tree's outermost operator binds */
  function Level(e: Expr): (l: int)
    ensures PrecAssign <= l <= PrecPrimary
  {
    match e
    case Binary(o, _, _) => BinLevel(o)
    case Assign(_, _) => PrecAssign
    case Unary(_, _) => PrecUnary
    case Borrow(_, _) => PrecUnary
    case Call(_, _) => PrecCall
    case Field(_, _) => PrecField
    case Deref(_) => PrecField
    case Return(_) => PrecAssign
    case Break(_, _) => PrecAssign
    case _ => PrecPrimary
  }

  predicate IsPrefix(e: Expr) { e.Unary? || e.Borrow? }

  /** Trees whose first token is not an operand to their left */
  predicate IsHead(e: Expr) { !(e.Binary? || e.Assign? || e.Call? || e.Field? || e.Deref?) }

  /** May `e` stand, unparenthesized, where an operand is parsed under `c`? */
  predicate Fits(e: Expr, c: Ctx) { IsPrefix(e) || Absorbs(c, Level(e)) }

  /** Words that the parser reads as something else where an expression begins */
  predicate PlainName(w: string) { w !in PrimaryKeywords && w != "mut" }

  /** No label begins anywhere the enclosing parse passes its own `labelOk` on */
  predicate NoLabel(e: Expr) {
    match e
    case Labeled(_, _) => false
    case Binary(_, l, r) => NoLabel(l) && NoLabel(r)
    case Assign(l, r) => NoLabel(l) && NoLabel(r)
    case Unary(_, x) => NoLabel(x)
    case Borrow(_, x) => NoLabel(x)
    case Call(f, _) => NoLabel(f)
    case Field(x, _) => NoLabel(x)
    case Deref(x) => NoLabel(x)
    case Return(v) => v.Some? ==> NoLabel(v.value)
    case Break(_, v) => v.Some? ==> NoLabel(v.value)
    case _ => true
  }

  /** A first token that an expression ending in `}` would take as an infix
      or postfix operator: `(`, `-` or `&` */
  predicate Glues(t: Token) {
    t == Sym(LParen) || t == Sym(Minus) || t == Sym(Amp)
  }

  /** The statement or last expression at index `k` of `b` (if any) does not
      begin with a token that would extend a with-block statement before it */
  predicate NextOk(b: Block, k: nat) {
    if k < |b.stmts| then !Glues(FirstTok(b.stmts[k]))
    else b.last.Some? && !Glues(FirstTok(b.last.value))
  }

  /** The expression trees the printer writes with no parentheses missing:
      the left operand of an infix or postfix operator binds at least as
      tightly as it, the right operand fits the operator's context, names
      are not read as keywords, a condition does not end in an operand-less
      `return` or `break`, and the statements of a block stay apart. */
  predicate Printable(e: Expr)
    decreases e, 1
  {
    match e
    case BoolLit(_) => true
    case IntLitE(_) => true
    case StrLitE(tag, _) => tag.Some? ==> PlainName(tag.value)
    case Null => true
    case PathE(root, _) => root.Name? ==> PlainName(root.name)
    case Paren(x) => Printable(x)
    case Binary(o, l, r) =>
      Printable(l) && Printable(r) && Level(l) >= BinLevel(o) && Fits(r, Ctx(BinLevel(o), false))
    case Assign(l, r) => Printable(l) && Printable(r) && Level(l) > PrecAssign
    case Unary(_, x) => Printable(x) && Fits(x, Ctx(PrecUnary, false))
    case Borrow(_, x) => Printable(x) && Fits(x, Ctx(PrecUnary, false))
    case Call(f, args) => Printable(f) && Level(f) >= PrecCall && forall a | a in args :: Printable(a)
    case Field(x, _) => Printable(x) && Level(x) >= PrecCall
    case Deref(x) => Printable(x) && Level(x) >= PrecCall
    case If(c, t, els) =>
      && Printable(c) && !OpenEnd(c) && PrintableBlock(t)
      && (els.Some? ==> (els.value.If? || els.value.BlockE?) && Printable(els.value))
    case Return(v) => v.Some? ==> Printable(v.value) && Fits(v.value, Ctx(PrecAssign, false))
    case Break(_, v) => v.Some? ==> Printable(v.value) && Fits(v.value, Ctx(PrecAssign, false))
    case Continue(_) => true
    case BlockE(b) => PrintableBlock(b)
    case While(c, b) => Printable(c) && !OpenEnd(c) && PrintableBlock(b)
    case Loop(b) => PrintableBlock(b)
    case For(_, _, _) => false
    case Labeled(n, x) =>
      PlainName(n) && if x.For? then PrintableFor(x) else (x.BlockE? || x.While? || x.Loop?) && Printable(x)
  }

  /** The `for` loop that a label wraps */
  predicate PrintableFor(x: Expr)
    requires x.For?
    decreases x, 2
  {
    Printable(x.iter) && !OpenEnd(x.iter) && PrintableBlock(x.body)
  }

  /** Every statement and the last expression are printable; a with-block
      statement is followed by something that does not extend it, so in
      particular it is never the final element of the block */
  predicate PrintableBlock(b: Block)
    decreases b, 0
  {
    && (forall k | 0 <= k < |b.stmts| :: Printable(b.stmts[k]))
    && (b.last.Some? ==> Printable(b.last.value))
    && (forall k | 0 <= k < |b.stmts| :: WithBlock(b.stmts[k]) ==> NextOk(b, k + 1))
  }

  /** A type printed before the `:` or `=` of a definition: it binds more
      tightly than `=`, holds no label where `labelOk` is false, is not
      ended by a word that `:` would extend, and does not begin with a
      primitive type's keyword */
  predicate PrintableType(t: TypeExpr) {
    match t
    case Prim(name) => name in PrimitiveTypes
    case TExpr(e) =>
      && Printable(e) && Fits(e, Ctx(PrecAssign, false)) && NoLabel(e)
      && !OpenEnd(e) && RightEnd(e) != Continue(None)
      && !(FirstTok(e).Word? && FirstTok(e).w in PrimitiveTypes)
  }

  predicate PrintableItem(it: Item) {
    Printable(it.value) && (it.ty.Some? ==> PrintableType(it.ty.value))
  }

  predicate PrintableItems(its: seq<Item>) {
    forall k | 0 <= k < |its| :: PrintableItem(its[k])
  }

  // ---------------------------------------------------------------------
  // Facts about printable trees

  lemma {:induction false} PrintableWf(e: Expr)
    requires Printable(e)
    ensures WfExpr(e)
    decreases e, 1
  {
    match e
    case Paren(x) => PrintableWf(x);
    case Binary(_, l, r) => PrintableWf(l); PrintableWf(r);
    case Assign(l, r) => PrintableWf(l); PrintableWf(r);
    case Unary(_, x) => PrintableWf(x);
    case Borrow(_, x) => PrintableWf(x);
    case Call(f, args) =>
      PrintableWf(f);
      forall a | a in args ensures WfExpr(a) { PrintableWf(a); }
    case Field(x, _) => PrintableWf(x);
    case Deref(x) => PrintableWf(x);
    case If(c, t, els) =>
      PrintableWf(c);
      PrintableBlockWf(t);
      if els.Some? { PrintableWf(els.value); }
    case Return(v) => if v.Some? { PrintableWf(v.value); }
    case Break(_, v) => if v.Some? { PrintableWf(v.value); }
    case BlockE(b) => PrintableBlockWf(b);
    case While(c, b) => PrintableWf(c); PrintableBlockWf(b);
    case Loop(b) => PrintableBlockWf(b);
    case Labeled(_, x) =>
      match x {
        case For(_, it, b) => PrintableWf(it); PrintableBlockWf(b);
        case BlockE(_) => PrintableWf(x);
        case While(_, _) => PrintableWf(x);
        case Loop(_) => PrintableWf(x);
        case _ =>
      }
    case _ =>
  }

  lemma {:induction false} PrintableBlockWf(b: Block)
    requires PrintableBlock(b)
    ensures WfBlock(b)
    decreases b, 0
  {
    forall s | s in b.stmts ensures WfExpr(s) {
      var k :| 0 <= k < |b.stmts| && b.stmts[k] == s;
      PrintableWf(b.stmts[k]);
    }
    if b.last.Some? { PrintableWf(b.last.value); }
  }

  lemma PrintableTypeWf(t: TypeExpr)
    requires PrintableType(t)
    ensures WfType(t)
  {
    if t.TExpr? { PrintableWf(t.e); }
  }

  lemma PrintableItemWf(it: Item)
    requires PrintableItem(it)
    ensures WfItem(it)
  {
    PrintableWf(it.value);
    if it.ty.Some? { PrintableTypeWf(it.ty.value); }
  }

  /** Every printed tree starts with `FirstTok`; for a printable tree that is
      a token that can begin an expression, and never `mut` or `}` */
  lemma {:induction false} FirstToken(e: Expr)
    requires Printable(e)
    ensures |Print(e)| > 0 && Print(e)[0] == FirstTok(e) && FirstTok(e) != Word("mut")
    ensures FirstTok(e).Sym? ==> FirstTok(e).p in {LParen, LBrace, Minus, Bang, Amp}
  {
    match e
    case Binary(_, l, _) => FirstToken(l);
    case Assign(l, _) => FirstToken(l);
    case Call(f, _) => FirstToken(f);
    case Field(x, _) => FirstToken(x);
    case Deref(x) => FirstToken(x);
    case BlockE(b) => assert Print(e) == [Sym(LBrace)] + PrintBody(b, 0);
    case _ =>
  }

  /** An operand that binds at least as tightly as `||` does not end in an
      operand-less `return` or `break` */
  lemma {:induction false} LevelEnd(e: Expr)
    requires Printable(e) && Level(e) >= PrecLogOr
    ensures !OpenEnd(e)
  {
    match e
    case Binary(_, _, r) => LevelEnd(r);
    case Unary(_, x) => LevelEnd(x);
    case Borrow(_, x) => LevelEnd(x);
    case If(_, _, els) => if els.Some? { LevelEnd(els.value); }
    case _ =>
  }
}

// One step of the parser for each form: each lemma unfolds one parsing
// function once, for tokens laid out as the printer writes that form.

module LunSteps {
  import opened LunTokens
  import opened LunAst
  import opened LunParser
  import opened LunPrinter
  import opened LunLayout

  // ---------------------------------------------------------------------
  // The climbing loop

  lemma InfixStop(p: Parser, e: Expr, n: nat, c: Ctx, lk: bool)
    requires n <= |p.toks| && !p.Continues(n, c)
    ensures p.ParseInfix(e, n, c, lk) == Ok(e, n)
  {
  }

  lemma PrefixThenInfix(p: Parser, e: Expr, pos: nat, n: nat, c: Ctx, lk: bool)
    requires pos <= |p.toks| && p.ParsePrefix(pos, lk) == Ok(e, n)
    ensures p.ParseExpr(pos, c, lk) == p.ParseInfix(e, n, c, lk)
  {
  }

  lemma BinaryStep(p: Parser, e: Expr, i: nat, n: nat, c: Ctx, lk: bool)
    requires e.Binary? && i < |p.toks| && p.toks[i] == Sym(BinPunct(e.op)) && Absorbs(c, BinLevel(e.op))
    requires p.ParseExpr(i + 1, Ctx(BinLevel(e.op), false), lk) == Ok(e.rhs, n)
    ensures p.ParseInfix(e.lhs, i, c, lk) == p.ParseInfix(e, n, c, lk)
  {
    BinOpOfPunct(e.op);
  }

  lemma AssignStep(p: Parser, e: Expr, i: nat, n: nat, c: Ctx, lk: bool)
    requires e.Assign? && i < |p.toks| && p.toks[i] == Sym(Eq) && Absorbs(c, PrecAssign)
    requires p.ParseExpr(i + 1, Ctx(PrecAssign, true), lk) == Ok(e.rhs, n)
    ensures p.ParseInfix(e.lhs, i, c, lk) == p.ParseInfix(e, n, c, lk)
  {
  }

  lemma CallStep(p: Parser, e: Expr, i: nat, n: nat, c: Ctx, lk: bool)
    requires e.Call? && i < |p.toks| && p.toks[i] == Sym(LParen) && Absorbs(c, PrecCall)
    requires p.ParseArgs(i + 1, []) == Ok(e.args, n)
    ensures p.ParseInfix(e.callee, i, c, lk) == p.ParseInfix(e, n, c, lk)
  {
  }

  lemma FieldStep(p: Parser, e: Expr, i: nat, c: Ctx, lk: bool)
    requires e.Field? && i + 1 < |p.toks| && p.toks[i] == Sym(Dot) && p.toks[i + 1] == Word(e.field)
    requires Absorbs(c, p.fieldLevel)
    ensures p.ParseInfix(e.e, i, c, lk) == p.ParseInfix(e, i + 2, c, lk)
  {
  }

  lemma DerefStep(p: Parser, e: Expr, i: nat, c: Ctx, lk: bool)
    requires e.Deref? && i < |p.toks| && p.toks[i] == Sym(DotStar) && Absorbs(c, p.fieldLevel)
    ensures p.ParseInfix(e.e, i, c, lk) == p.ParseInfix(e, i + 1, c, lk)
  {
  }

  // ---------------------------------------------------------------------
  // Arguments

  lemma ArgsCloseStep(p: Parser, pos: nat, acc: seq<Expr>)
    requires pos < |p.toks| && p.toks[pos] == Sym(RParen) && forall a | a in acc :: WfExpr(a)
    ensures p.ParseArgs(pos, acc) == Ok(acc, pos + 1)
  {
  }

  lemma ArgsLastStep(p: Parser, pos: nat, acc: seq<Expr>, args: seq<Expr>, m: nat)
    requires |args| == 1 && pos <= |p.toks| && !p.SymAt(pos, RParen) && forall b | b in acc :: WfExpr(b)
    requires p.ParseExpr(pos, Top, true) == Ok(args[0], m) && m < |p.toks| && p.toks[m] == Sym(RParen)
    ensures p.ParseArgs(pos, acc) == Ok(acc + args, m + 1)
  {
    assert acc + args == acc + [args[0]];
  }

  lemma ArgsMoreStep(p: Parser, pos: nat, acc: seq<Expr>, args: seq<Expr>, m: nat)
    requires args != [] && pos <= |p.toks| && !p.SymAt(pos, RParen) && forall b | b in acc :: WfExpr(b)
    requires p.ParseExpr(pos, Top, true) == Ok(args[0], m) && m < |p.toks| && p.toks[m] == Sym(Comma)
    ensures forall b | b in acc + [args[0]] :: WfExpr(b)
    ensures p.ParseArgs(pos, acc) == p.ParseArgs(m + 1, acc + [args[0]])
  {
    hide Parser.ParseExpr;
  }

  lemma ConsSplit<T>(acc: seq<T>, xs: seq<T>)
    requires xs != []
    ensures acc + [xs[0]] + xs[1..] == acc + xs
  {
  }

  // ---------------------------------------------------------------------
  // Primary and prefix forms

  lemma ParenStep(p: Parser, x: Expr, pos: nat, m: nat, lk: bool)
    requires pos < m < |p.toks| && p.toks[pos] == Sym(LParen) && p.toks[m] == Sym(RParen)
    requires p.ParseExpr(pos + 1, Top, true) == Ok(x, m)
    ensures p.ParsePrefix(pos, lk) == Ok(Paren(x), m + 1)
  {
  }

  lemma UnaryStep(p: Parser, e: Expr, pos: nat, n: nat, lk: bool)
    requires e.Unary? && pos < |p.toks| && p.toks[pos] == Sym(UnPunct(e.uop))
    requires p.ParseExpr(pos + 1, Ctx(PrecUnary, false), lk) == Ok(e.e, n)
    ensures p.ParsePrefix(pos, lk) == Ok(e, n)
  {
  }

  lemma BorrowStep(p: Parser, e: Expr, pos: nat, j: nat, n: nat, lk: bool)
    requires e.Borrow? && pos < |p.toks| && p.toks[pos] == Sym(Amp)
    requires p.KeywordAt(pos + 1, "mut") == e.isMut && j == (if e.isMut then pos + 2 else pos + 1)
    requires j <= |p.toks| && p.ParseExpr(j, Ctx(PrecUnary, false), lk) == Ok(e.e, n)
    ensures p.ParsePrefix(pos, lk) == Ok(e, n)
  {
  }

  lemma AtomStep(p: Parser, e: Expr, pos: nat, lk: bool)
    requires e.BoolLit? || e.IntLitE? || e.Null? || (e.StrLitE? && e.tag.None?)
    requires pos < |p.toks| && p.toks[pos] == FirstTok(e) && (e.StrLitE? ==> p.toks[pos] == Str(e.pieces))
    ensures p.ParsePrefix(pos, lk) == Ok(e, pos + 1)
  {
  }

  lemma TaggedStep(p: Parser, e: Expr, pos: nat, lk: bool)
    requires e.StrLitE? && e.tag.Some? && PlainName(e.tag.value)
    requires pos + 1 < |p.toks| && p.toks[pos] == Word(e.tag.value) && p.toks[pos + 1] == Str(e.pieces)
    ensures p.ParsePrefix(pos, lk) == Ok(e, pos + 2)
  {
  }

  lemma RootStep(p: Parser, root: PathRoot, pos: nat, lk: bool)
    requires pos < |p.toks| && p.toks[pos] == Word(RootWord(root))
    requires root.Name? ==> PlainName(root.name)
    requires pos + 1 < |p.toks| ==> !p.toks[pos + 1].Str? && !(lk && p.toks[pos + 1] == Sym(Colon))
    ensures p.ParsePrefix(pos, lk) == p.ParsePathTail(pos + 1, root, [])
  {
  }

  lemma SegStep(p: Parser, pos: nat, root: PathRoot, done: seq<string>, s: string)
    requires 0 < pos && pos + 1 < |p.toks| && p.toks[pos] == Sym(ColonColon) && p.toks[pos + 1] == Word(s)
    ensures p.ParsePathTail(pos, root, done) == p.ParsePathTail(pos + 2, root, done + [s])
  {
  }

  lemma ReturnStep(p: Parser, e: Expr, pos: nat, n: nat, lk: bool)
    requires e.Return? && pos < |p.toks| && p.toks[pos] == Word("return")
    requires e.value.Some? ==> p.StartsExpr(pos + 1) && p.ParseExpr(pos + 1, Ctx(PrecAssign, false), lk) == Ok(e.value.value, n)
    requires e.value.None? ==> !p.StartsExpr(pos + 1) && n == pos + 1
    ensures p.ParsePrefix(pos, lk) == Ok(e, n)
  {
  }

  lemma BreakRoute(p: Parser, pos: nat, lk: bool)
    requires pos < |p.toks| && p.toks[pos] == Word("break")
    ensures p.ParsePrefix(pos, lk) == p.ParseBreak(pos, lk)
  {
  }

  lemma BreakStep(p: Parser, e: Expr, pos: nat, j: nat, n: nat, lk: bool)
    requires e.Break? && pos < |p.toks| && p.SymAt(pos + 1, Colon) == e.target.Some?
    requires e.target.Some? ==> p.AnyWordAt(pos + 2) && p.toks[pos + 2].w == e.target.value && j == pos + 3
    requires e.target.None? ==> j == pos + 1
    requires e.value.Some? ==> p.StartsExpr(j) && p.ParseExpr(j, Ctx(PrecAssign, false), lk) == Ok(e.value.value, n)
    requires e.value.None? ==> !p.StartsExpr(j) && n == j
    ensures p.ParseBreak(pos, lk) == Ok(e, n)
  {
  }

  lemma ContinueStep(p: Parser, e: Expr, pos: nat, n: nat, lk: bool)
    requires e.Continue? && pos < |p.toks| && p.toks[pos] == Word("continue")
    requires e.target.Some? ==> pos + 2 < |p.toks| && n == pos + 3
    requires e.target.Some? ==> p.toks[pos + 1] == Sym(Colon) && p.toks[pos + 2] == Word(e.target.value)
    requires e.target.None? ==> !p.SymAt(pos + 1, Colon) && n == pos + 1
    ensures p.ParsePrefix(pos, lk) == Ok(e, n)
  {
  }

  // ---------------------------------------------------------------------
  // Forms with blocks

  lemma BlockEStep(p: Parser, b: Block, pos: nat, n: nat, lk: bool)
    requires pos < |p.toks| && p.toks[pos] == Sym(LBrace) && p.ParseBlock(pos) == Ok(b, n)
    ensures p.ParsePrefix(pos, lk) == Ok(BlockE(b), n)
  {
  }

  lemma LoopStep(p: Parser, b: Block, pos: nat, n: nat, lk: bool)
    requires pos < |p.toks| && p.toks[pos] == Word("loop") && p.ParseBlock(pos + 1) == Ok(b, n)
    ensures p.ParsePrefix(pos, lk) == Ok(Loop(b), n)
  {
  }

  lemma WhileRoute(p: Parser, pos: nat, lk: bool)
    requires pos < |p.toks| && p.toks[pos] == Word("while")
    ensures p.ParsePrefix(pos, lk) == p.ParseWhile(pos)
  {
  }

  lemma WhileStep(p: Parser, e: Expr, pos: nat, m: nat, n: nat)
    requires e.While? && pos < m <= |p.toks|
    requires p.ParseExpr(pos + 1, Top, true) == Ok(e.cond, m) && p.ParseBlock(m) == Ok(e.body, n)
    ensures p.ParseWhile(pos) == Ok(e, n)
  {
  }

  lemma ForStep(p: Parser, e: Expr, pos: nat, m: nat, n: nat)
    requires e.For? && pos + 2 < |p.toks| && p.toks[pos + 1] == Word(e.binder) && p.toks[pos + 2] == Word("in")
    requires m <= |p.toks| && p.ParseExpr(pos + 3, Top, true) == Ok(e.iter, m) && p.ParseBlock(m) == Ok(e.body, n)
    ensures p.ParseFor(pos) == Ok(e, n)
  {
  }

  lemma IfRoute(p: Parser, pos: nat, lk: bool)
    requires pos < |p.toks| && p.toks[pos] == Word("if")
    ensures p.ParsePrefix(pos, lk) == p.ParseIf(pos)
  {
  }

  /** The condition and the `then` block of an `if`, then what follows them */
  lemma IfStep(p: Parser, e: Expr, pos: nat, m: nat, k: nat, n: nat)
    requires e.If? && pos < m <= |p.toks|
    requires p.ParseExpr(pos + 1, Top, true) == Ok(e.cond, m) && p.ParseBlock(m) == Ok(e.thn, k)
    requires e.els.None? ==> !p.KeywordAt(k, "else") && n == k
    requires e.els.Some? ==> p.KeywordAt(k, "else") && p.KeywordAt(k + 1, "if") == e.els.value.If?
    requires e.els.Some? && e.els.value.If? ==> p.ParseIf(k + 1) == Ok(e.els.value, n)
    requires e.els.Some? && e.els.value.BlockE? ==> p.ParseBlock(k + 1) == Ok(e.els.value.block, n)
    requires e.els.Some? ==> e.els.value.If? || e.els.value.BlockE?
    ensures p.ParseIf(pos) == Ok(e, n)
  {
    hide WfExpr, WfBlock, Parser.ParseExpr, Parser.ParseBlock, Parser.KeywordAt, Parser.Advances;
    if e.els.None? {
    } else if e.els.value.If? {
    } else {
      assert e.els == Some(BlockE(e.els.value.block));
    }
  }

  lemma LabeledRoute(p: Parser, pos: nat, name: string)
    requires pos + 1 < |p.toks| && p.toks[pos] == Word(name) && PlainName(name)
    requires p.toks[pos + 1] == Sym(Colon) && p.LabelBodyAt(pos + 2)
    ensures p.ParsePrefix(pos, true) == p.ParseLabeled(pos)
  {
  }

  lemma LabeledStep(p: Parser, e: Expr, pos: nat, n: nat)
    requires e.Labeled? && pos + 1 < |p.toks| && p.toks[pos] == Word(e.name) && p.toks[pos + 1] == Sym(Colon)
    requires e.inner.BlockE? ==> p.SymAt(pos + 2, LBrace) && p.ParseBlock(pos + 2) == Ok(e.inner.block, n)
    requires e.inner.While? ==> p.KeywordAt(pos + 2, "while") && p.ParseWhile(pos + 2) == Ok(e.inner, n)
    requires e.inner.For? ==> p.KeywordAt(pos + 2, "for") && p.ParseFor(pos + 2) == Ok(e.inner, n)
    requires e.inner.Loop? ==> p.KeywordAt(pos + 2, "loop") && p.ParseBlock(pos + 3) == Ok(e.inner.body, n)
    requires e.inner.BlockE? || e.inner.While? || e.inner.For? || e.inner.Loop?
    ensures p.ParseLabeled(pos) == Ok(e, n)
  {
  }

  // ---------------------------------------------------------------------
  // Blocks

  lemma BlockEnter(p: Parser, pos: nat)
    requires pos < |p.toks| && p.toks[pos] == Sym(LBrace)
    ensures p.ParseBlock(pos) == p.ParseStmts(pos + 1, [])
  {
  }

  lemma StmtsCloseStep(p: Parser, pos: nat, acc: seq<Expr>)
    requires pos < |p.toks| && p.toks[pos] == Sym(RBrace) && forall s | s in acc :: WfExpr(s)
    ensures p.ParseStmts(pos, acc) == Ok(Block(acc, None), pos + 1)
  {
  }

  lemma StmtsLastStep(p: Parser, pos: nat, acc: seq<Expr>, x: Expr, m: nat)
    requires pos < |p.toks| && !p.SymAt(pos, RBrace) && forall s | s in acc :: WfExpr(s)
    requires p.ParseExpr(pos, Top, true) == Ok(x, m) && p.SymAt(m, RBrace)
    ensures p.ParseStmts(pos, acc) == Ok(Block(acc, Some(x)), m + 1)
  {
  }

  lemma StmtsWithStep(p: Parser, pos: nat, acc: seq<Expr>, x: Expr, m: nat)
    requires pos < |p.toks| && !p.SymAt(pos, RBrace) && forall s | s in acc :: WfExpr(s)
    requires p.ParseExpr(pos, Top, true) == Ok(x, m) && !p.SymAt(m, RBrace) && WithBlock(x)
    ensures forall s | s in acc + [x] :: WfExpr(s)
    ensures p.ParseStmts(pos, acc) == p.ParseStmts(m, acc + [x])
  {
  }

  lemma StmtsSemiStep(p: Parser, pos: nat, acc: seq<Expr>, x: Expr, m: nat)
    requires pos < |p.toks| && !p.SymAt(pos, RBrace) && forall s | s in acc :: WfExpr(s)
    requires p.ParseExpr(pos, Top, true) == Ok(x, m) && !WithBlock(x) && m < |p.toks| && p.toks[m] == Sym(Semi)
    ensures forall s | s in acc + [x] :: WfExpr(s)
    ensures p.ParseStmts(pos, acc) == p.ParseStmts(m + 1, acc + [x])
  {
    hide WithBlock, WfExpr, Parser.ParseExpr;
    assert p.SymAt(m, Semi) && !p.SymAt(m, RBrace);
  }

  // ---------------------------------------------------------------------
  // Types and items

  lemma TypePrimStep(p: Parser, pos: nat, name: string)
    requires pos < |p.toks| && p.toks[pos] == Word(name) && name in PrimitiveTypes
    ensures p.ParseType(pos) == Ok(Prim(name), pos + 1)
  {
  }

  lemma TypeExprStep(p: Parser, pos: nat, e: Expr, n: nat)
    requires pos <= |p.toks| && !(p.AnyWordAt(pos) && p.toks[pos].w in PrimitiveTypes)
    requires p.ParseExpr(pos, Ctx(PrecAssign, false), false) == Ok(e, n)
    ensures p.ParseType(pos) == Ok(TExpr(e), n)
  {
  }

  lemma ValueSemiStep(p: Parser, pos: nat, v: Expr, m: nat)
    requires pos <= |p.toks| && p.ParseExpr(pos, Top, true) == Ok(v, m) && p.SymAt(m, Semi)
    ensures p.ParseItemValue(pos) == Ok(v, m + 1)
  {
  }

  lemma ValueWithStep(p: Parser, pos: nat, v: Expr, n: nat)
    requires pos <= |p.toks| && p.ParseExpr(pos, Top, true) == Ok(v, n) && !p.SymAt(n, Semi) && WithBlock(v)
    ensures p.ParseItemValue(pos) == Ok(v, n)
  {
  }

  lemma ItemStep(p: Parser, it: Item, pos: nat, m: nat, n: nat)
    requires pos + 1 < |p.toks| && p.toks[pos] == Word(it.name) && p.toks[pos + 1] == Sym(Colon)
    requires it.ty.None? ==> m == pos + 2
    requires it.ty.Some? ==> !p.SymAt(pos + 2, Colon) && !p.SymAt(pos + 2, Eq) && p.ParseType(pos + 2) == Ok(it.ty.value, m)
    requires m < |p.toks| && p.toks[m] == Sym(if it.isConst then Colon else Eq)
    requires p.ParseItemValue(m + 1) == Ok(it.value, n)
    ensures p.ParseItem(pos) == Ok(it, n)
  {
  }

  lemma ItemsEndStep(p: Parser, acc: seq<Item>)
    requires forall it | it in acc :: WfItem(it)
    ensures p.ParseItems(|p.toks|, acc) == Ok(acc, |p.toks|)
  {
  }

  lemma ItemsStep(p: Parser, pos: nat, acc: seq<Item>, it: Item, m: nat)
    requires pos < |p.toks| && forall i | i in acc :: WfItem(i)
    requires p.ParseItem(pos) == Ok(it, m)
    ensures forall i | i in acc + [it] :: WfItem(i)
    ensures p.ParseItems(pos, acc) == p.ParseItems(m, acc + [it])
  {
  }
}

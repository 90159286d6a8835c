// The round trip: the parser reads every printable tree back from its
// printed tokens and stops right after them. One lemma per form; each takes
// its hypotheses apart with a `...Split` lemma of LunLayout, reads the parts
// back by induction on the tree, and puts them together with one parser
// step of LunSteps.

module LunRoundTrip {
  import opened LunTokens
  import opened LunAst
  import opened LunParser
  import opened LunPrinter
  import opened LunLayout
  import opened LunSteps

  // ---------------------------------------------------------------------
  // Expressions

  /** Parsing the printed tokens of a printable `e` under a context it fits
      gives `e` back and stops right after it */
  lemma {:induction false} ExprRT(p: Parser, e: Expr, pos: nat, n: nat, c: Ctx, lk: bool)
    requires ExprReady(p, e, pos, n, c, lk) == true
    ensures pos <= |p.toks| && p.ParseExpr(pos, c, lk) == Ok(e, n)
    decreases e, 5
  {
    hide *;
    ReadyLead(p, e, pos, n, c, lk);
    Lead(p, e, pos, n, c, lk);
    InfixStop(p, e, n, c, lk);
  }

  /** Reading `e` is a prefix of the parse: once `e` is read, the climbing
      loop goes on from the token after it */
  lemma {:induction false} Lead(p: Parser, e: Expr, pos: nat, n: nat, c: Ctx, lk: bool)
    requires LeadReady(p, e, pos, n, c, lk) == true
    ensures pos <= |p.toks| && n <= |p.toks|
    ensures p.ParseExpr(pos, c, lk) == p.ParseInfix(e, n, c, lk)
    decreases e, 4
  {
    hide *;
    match e {
      case Binary(_, _, _) => LeadBinary(p, e, pos, n, c, lk);
      case Assign(_, _) => LeadAssign(p, e, pos, n, c, lk);
      case Call(_, _) => LeadCall(p, e, pos, n, c, lk);
      case Field(_, _) => LeadField(p, e, pos, n, c, lk);
      case Deref(_) => LeadDeref(p, e, pos, n, c, lk);
      case _ => HeadRT(p, e, pos, n, c, lk);
    }
  }

  lemma {:induction false} HeadRT(p: Parser, e: Expr, pos: nat, n: nat, c: Ctx, lk: bool)
    requires !(e.Binary? || e.Assign? || e.Call? || e.Field? || e.Deref?)
    requires LeadReady(p, e, pos, n, c, lk) == true
    ensures pos <= |p.toks| && n <= |p.toks|
    ensures p.ParseExpr(pos, c, lk) == p.ParseInfix(e, n, c, lk)
    decreases e, 3
  {
    hide *;
    HeadSplit(p, e, pos, n, c, lk);
    PrefixRT(p, e, pos, n, lk);
    PrefixThenInfix(p, e, pos, n, c, lk);
  }

  lemma {:induction false} LeadBinary(p: Parser, e: Expr, pos: nat, n: nat, c: Ctx, lk: bool)
    requires e.Binary? && LeadReady(p, e, pos, n, c, lk) == true
    ensures pos <= |p.toks| && n <= |p.toks|
    ensures p.ParseExpr(pos, c, lk) == p.ParseInfix(e, n, c, lk)
    decreases e, 2
  {
    hide *;
    var i := BinarySplit(p, e, pos, n, c, lk);
    Lead(p, e.lhs, pos, i, c, lk);
    ExprRT(p, e.rhs, i + 1, n, Ctx(BinLevel(e.op), false), lk);
    BinaryStep(p, e, i, n, c, lk);
  }

  lemma {:induction false} LeadAssign(p: Parser, e: Expr, pos: nat, n: nat, c: Ctx, lk: bool)
    requires e.Assign? && LeadReady(p, e, pos, n, c, lk) == true
    ensures pos <= |p.toks| && n <= |p.toks|
    ensures p.ParseExpr(pos, c, lk) == p.ParseInfix(e, n, c, lk)
    decreases e, 2
  {
    hide *;
    var i := AssignSplit(p, e, pos, n, c, lk);
    Lead(p, e.lhs, pos, i, c, lk);
    ExprRT(p, e.rhs, i + 1, n, Ctx(PrecAssign, true), lk);
    AssignStep(p, e, i, n, c, lk);
  }

  lemma {:induction false} LeadCall(p: Parser, e: Expr, pos: nat, n: nat, c: Ctx, lk: bool)
    requires e.Call? && LeadReady(p, e, pos, n, c, lk) == true
    ensures pos <= |p.toks| && n <= |p.toks|
    ensures p.ParseExpr(pos, c, lk) == p.ParseInfix(e, n, c, lk)
    decreases e, 2
  {
    hide *;
    var i := CallSplit(p, e, pos, n, c, lk);
    Lead(p, e.callee, pos, i, c, lk);
    ArgsRT(p, e.args, [], i + 1, n, false);
    assert [] + e.args == e.args;
    CallStep(p, e, i, n, c, lk);
  }

  lemma {:induction false} LeadField(p: Parser, e: Expr, pos: nat, n: nat, c: Ctx, lk: bool)
    requires e.Field? && LeadReady(p, e, pos, n, c, lk) == true
    ensures pos <= |p.toks| && n <= |p.toks|
    ensures p.ParseExpr(pos, c, lk) == p.ParseInfix(e, n, c, lk)
    decreases e, 2
  {
    hide *;
    var i := FieldSplit(p, e, pos, n, c, lk);
    Lead(p, e.e, pos, i, c, lk);
    FieldStep(p, e, i, c, lk);
  }

  lemma {:induction false} LeadDeref(p: Parser, e: Expr, pos: nat, n: nat, c: Ctx, lk: bool)
    requires e.Deref? && LeadReady(p, e, pos, n, c, lk) == true
    ensures pos <= |p.toks| && n <= |p.toks|
    ensures p.ParseExpr(pos, c, lk) == p.ParseInfix(e, n, c, lk)
    decreases e, 2
  {
    hide *;
    var i := DerefSplit(p, e, pos, n, c, lk);
    Lead(p, e.e, pos, i, c, lk);
    DerefStep(p, e, i, c, lk);
  }

  /** A primary expression or a prefix form reads back as itself */
  lemma {:induction false} PrefixRT(p: Parser, e: Expr, pos: nat, n: nat, lk: bool)
    requires HeadReady(p, e, pos, n, lk) == true
    ensures pos <= |p.toks| && p.ParsePrefix(pos, lk) == Ok(e, n)
    decreases e, 2
  {
    assert IsHead(e) && !e.For?;
    hide *;
    match e {
      case BoolLit(_) => AtomRT(p, e, pos, n, lk);
      case IntLitE(_) => AtomRT(p, e, pos, n, lk);
      case StrLitE(_, _) => AtomRT(p, e, pos, n, lk);
      case Null => AtomRT(p, e, pos, n, lk);
      case PathE(_, _) => PathRT(p, e, pos, n, lk);
      case Paren(_) => ParenRT(p, e, pos, n, lk);
      case Unary(_, _) => UnaryRT(p, e, pos, n, lk);
      case Borrow(_, _) => BorrowRT(p, e, pos, n, lk);
      case Return(_) => ReturnRT(p, e, pos, n, lk);
      case Break(_, _) => BreakRT(p, e, pos, n, lk);
      case Continue(_) => ContinueRT(p, e, pos, n, lk);
      case If(_, _, _) => IfPrefixRT(p, e, pos, n, lk);
      case BlockE(_) => BlockERT(p, e, pos, n, lk);
      case While(_, _) => WhilePrefixRT(p, e, pos, n, lk);
      case Loop(_) => LoopRT(p, e, pos, n, lk);
      case Labeled(_, _) => LabeledRT(p, e, pos, n, lk);
      case For(_, _, _) =>
      case Binary(_, _, _) =>
      case Assign(_, _) =>
      case Call(_, _) =>
      case Field(_, _) =>
      case Deref(_) =>
    }
  }

  lemma {:induction false} ParenRT(p: Parser, e: Expr, pos: nat, n: nat, lk: bool)
    requires e.Paren? && HeadReady(p, e, pos, n, lk) == true
    ensures pos <= |p.toks| && p.ParsePrefix(pos, lk) == Ok(e, n)
    decreases e, 1
  {
    assert p.fieldLevel == PrecField && Printable(e) && Placed(p, e, pos, n);
    hide *;
    ParenSplit(p, e, pos, n);
    ExprRT(p, e.e, pos + 1, n - 1, Top, true);
    ParenStep(p, e.e, pos, n - 1, lk);
  }

  lemma {:induction false} UnaryRT(p: Parser, e: Expr, pos: nat, n: nat, lk: bool)
    requires e.Unary? && HeadReady(p, e, pos, n, lk) == true
    ensures pos <= |p.toks| && p.ParsePrefix(pos, lk) == Ok(e, n)
    decreases e, 1
  {
    hide *;
    UnarySplit(p, e, pos, n, lk);
    ExprRT(p, e.e, pos + 1, n, Ctx(PrecUnary, false), lk);
    UnaryStep(p, e, pos, n, lk);
  }

  lemma {:induction false} BorrowRT(p: Parser, e: Expr, pos: nat, n: nat, lk: bool)
    requires e.Borrow? && HeadReady(p, e, pos, n, lk) == true
    ensures pos <= |p.toks| && p.ParsePrefix(pos, lk) == Ok(e, n)
    decreases e, 1
  {
    hide *;
    var j := BorrowSplit(p, e, pos, n, lk);
    ExprRT(p, e.e, j, n, Ctx(PrecUnary, false), lk);
    BorrowStep(p, e, pos, j, n, lk);
  }

  lemma AtomRT(p: Parser, e: Expr, pos: nat, n: nat, lk: bool)
    requires e.BoolLit? || e.IntLitE? || e.Null? || e.StrLitE?
    requires HeadReady(p, e, pos, n, lk) == true
    ensures pos <= |p.toks| && p.ParsePrefix(pos, lk) == Ok(e, n)
  {
    if e.StrLitE? && e.tag.Some? {
      assert Print(e) == [Word(e.tag.value), Str(e.pieces)];
      AtTwo(p, pos, Word(e.tag.value), Str(e.pieces));
      TaggedStep(p, e, pos, lk);
    } else {
      assert Print(e) == [FirstTok(e)];
      AtOne(p, pos, FirstTok(e));
      AtomStep(p, e, pos, lk);
    }
  }

  lemma PathRT(p: Parser, e: Expr, pos: nat, n: nat, lk: bool)
    requires e.PathE? && HeadReady(p, e, pos, n, lk) == true
    ensures pos <= |p.toks| && p.ParsePrefix(pos, lk) == Ok(e, n)
  {
    PathSplit(p, e, pos, n, lk);
    RootStep(p, e.root, pos, lk);
    PathTailRT(p, pos + 1, e.root, [], e.segs, n);
    assert [] + e.segs == e.segs;
  }

  lemma {:induction false} PathTailRT(p: Parser, pos: nat, root: PathRoot, done: seq<string>, segs: seq<string>, n: nat)
    requires 0 < pos && At(p, pos, PrintSegs(segs)) && n == pos + |PrintSegs(segs)|
    requires n <= |p.toks| && !p.SymAt(n, ColonColon)
    ensures p.ParsePathTail(pos, root, done) == Ok(PathE(root, done + segs), n)
    decreases segs
  {
    if segs == [] {
      assert done + segs == done;
    } else {
      SegsSplit(p, pos, segs);
      SegStep(p, pos, root, done, segs[0]);
      PathTailRT(p, pos + 2, root, done + [segs[0]], segs[1..], n);
      ConsSplit(done, segs);
    }
  }

  lemma {:induction false} ReturnRT(p: Parser, e: Expr, pos: nat, n: nat, lk: bool)
    requires e.Return? && HeadReady(p, e, pos, n, lk) == true
    ensures pos <= |p.toks| && p.ParsePrefix(pos, lk) == Ok(e, n)
    decreases e, 1
  {
    hide *;
    ReturnSplit(p, e, pos, n, lk);
    if e.value.Some? {
      ExprRT(p, e.value.value, pos + 1, n, Ctx(PrecAssign, false), lk);
    }
    ReturnStep(p, e, pos, n, lk);
  }

  lemma {:induction false} BreakRT(p: Parser, e: Expr, pos: nat, n: nat, lk: bool)
    requires e.Break? && HeadReady(p, e, pos, n, lk) == true
    ensures pos <= |p.toks| && p.ParsePrefix(pos, lk) == Ok(e, n)
    decreases e, 1
  {
    hide *;
    var j := BreakSplit(p, e, pos, n, lk);
    if e.value.Some? {
      ExprRT(p, e.value.value, j, n, Ctx(PrecAssign, false), lk);
    }
    BreakRoute(p, pos, lk);
    BreakStep(p, e, pos, j, n, lk);
  }

  lemma ContinueRT(p: Parser, e: Expr, pos: nat, n: nat, lk: bool)
    requires e.Continue? && HeadReady(p, e, pos, n, lk) == true
    ensures pos <= |p.toks| && p.ParsePrefix(pos, lk) == Ok(e, n)
  {
    hide *;
    ContinueSplit(p, e, pos, n, lk);
    ContinueStep(p, e, pos, n, lk);
  }

  // ---------------------------------------------------------------------
  // Forms with blocks

  lemma {:induction false} BlockERT(p: Parser, e: Expr, pos: nat, n: nat, lk: bool)
    requires e.BlockE? && HeadReady(p, e, pos, n, lk) == true
    ensures pos <= |p.toks| && p.ParsePrefix(pos, lk) == Ok(e, n)
    decreases e, 1
  {
    assert BlockReady(p, e.block, pos, n);
    hide *;
    BlockHead(p, e.block, pos, n);
    BlockRT(p, e.block, pos, n);
    BlockEStep(p, e.block, pos, n, lk);
  }

  lemma {:induction false} LoopRT(p: Parser, e: Expr, pos: nat, n: nat, lk: bool)
    requires e.Loop? && HeadReady(p, e, pos, n, lk) == true
    ensures pos <= |p.toks| && p.ParsePrefix(pos, lk) == Ok(e, n)
    decreases e, 1
  {
    assert p.fieldLevel == PrecField && Printable(e) && Placed(p, e, pos, n);
    hide *;
    LoopSplit(p, e, pos, n);
    BlockRT(p, e.body, pos + 1, n);
    LoopStep(p, e.body, pos, n, lk);
  }

  lemma {:induction false} WhilePrefixRT(p: Parser, e: Expr, pos: nat, n: nat, lk: bool)
    requires e.While? && HeadReady(p, e, pos, n, lk) == true
    ensures pos <= |p.toks| && p.ParsePrefix(pos, lk) == Ok(e, n)
    decreases e, 1
  {
    assert p.fieldLevel == PrecField && Printable(e) && Placed(p, e, pos, n);
    hide *;
    WhileRT(p, e, pos, n);
    WhileRoute(p, pos, lk);
  }

  /** `while`: the condition, then the body */
  lemma {:induction false} WhileRT(p: Parser, e: Expr, pos: nat, n: nat)
    requires e.While? && p.fieldLevel == PrecField && Printable(e) && Placed(p, e, pos, n)
    ensures pos < |p.toks| && p.toks[pos] == Word("while") && p.ParseWhile(pos) == Ok(e, n)
    decreases e, 0
  {
    hide *;
    var m := WhileSplit(p, e, pos, n);
    ExprRT(p, e.cond, pos + 1, m, Top, true);
    BlockRT(p, e.body, m, n);
    WhileStep(p, e, pos, m, n);
  }

  /** `for`, which only a label wraps */
  lemma {:induction false} ForRT(p: Parser, e: Expr, pos: nat, n: nat)
    requires e.For? && p.fieldLevel == PrecField && PrintableFor(e) && Placed(p, e, pos, n)
    ensures pos < |p.toks| && p.toks[pos] == Word("for") && p.ParseFor(pos) == Ok(e, n)
    decreases e, 0
  {
    hide *;
    var m := ForSplit(p, e, pos, n);
    ExprRT(p, e.iter, pos + 3, m, Top, true);
    BlockRT(p, e.body, m, n);
    ForStep(p, e, pos, m, n);
  }

  lemma {:induction false} IfPrefixRT(p: Parser, e: Expr, pos: nat, n: nat, lk: bool)
    requires e.If? && HeadReady(p, e, pos, n, lk) == true
    ensures pos <= |p.toks| && p.ParsePrefix(pos, lk) == Ok(e, n)
    decreases e, 1
  {
    assert p.fieldLevel == PrecField && Printable(e) && Placed(p, e, pos, n);
    assert n <= |p.toks| && FollowOk(p, n, e, lk);
    hide *;
    IfRT(p, e, pos, n, lk);
    IfRoute(p, pos, lk);
  }

  /** `if`: the condition, the `then` block, and the `else` branch if any */
  lemma {:induction false} IfRT(p: Parser, e: Expr, pos: nat, n: nat, lk: bool)
    requires e.If? && p.fieldLevel == PrecField && Printable(e) && Placed(p, e, pos, n)
    requires n <= |p.toks| && FollowOk(p, n, e, lk)
    ensures pos < |p.toks| && p.toks[pos] == Word("if") && p.ParseIf(pos) == Ok(e, n)
    decreases e, 0
  {
    hide *;
    var m, k := IfSplit(p, e, pos, n);
    ExprRT(p, e.cond, pos + 1, m, Top, true);
    BlockRT(p, e.thn, m, k);
    if e.els.None? {
      IfEndFollows(p, e, n, lk);
    } else {
      ElseFollows(p, e, n, lk);
      ElseRT(p, e.els.value, k, n, lk);
    }
    IfStep(p, e, pos, m, k, n);
  }

  /** The `else` branch: another `if`, or a block */
  lemma {:induction false} ElseRT(p: Parser, x: Expr, k: nat, n: nat, lk: bool)
    requires (x.If? || x.BlockE?) && p.fieldLevel == PrecField && Printable(x)
    requires At(p, k, [Word("else")] + Print(x)) && n == k + 1 + |Print(x)|
    requires n <= |p.toks| && FollowOk(p, n, x, lk)
    ensures p.KeywordAt(k, "else") && p.KeywordAt(k + 1, "if") == x.If?
    ensures x.If? ==> p.ParseIf(k + 1) == Ok(x, n)
    ensures x.BlockE? ==> p.ParseBlock(k + 1) == Ok(x.block, n)
    decreases x, 1
  {
    hide *;
    ElseSplit(p, x, k, n);
    if x.If? {
      IfRT(p, x, k + 1, n, lk);
    } else {
      BlockRT(p, x.block, k + 1, n);
    }
  }

  /** A labeled block, `while`, `for` or `loop` */
  lemma {:induction false} LabeledRT(p: Parser, e: Expr, pos: nat, n: nat, lk: bool)
    requires e.Labeled? && HeadReady(p, e, pos, n, lk) == true
    ensures pos <= |p.toks| && p.ParsePrefix(pos, lk) == Ok(e, n)
    decreases e, 1
  {
    assert p.fieldLevel == PrecField && Printable(e) && Placed(p, e, pos, n) && lk;
    var x := e.inner;
    assert x.BlockE? || x.While? || x.For? || x.Loop?;
    assert x.BlockE? ==> Print(x) == PrintBlock(x.block) && PrintableBlock(x.block);
    assert x.Loop? ==> Printable(x);
    hide *;
    LabeledSplit(p, e, pos, n);
    LabeledRoute(p, pos, e.name);
    match x {
      case BlockE(b) =>
        BlockHead(p, b, pos + 2, n);
        BlockRT(p, b, pos + 2, n);
      case While(_, _) =>
        WhileRT(p, x, pos + 2, n);
      case For(_, _, _) =>
        ForRT(p, x, pos + 2, n);
      case Loop(b) =>
        LoopSplit(p, x, pos + 2, n);
        BlockRT(p, b, pos + 3, n);
    }
    LabeledStep(p, e, pos, n);
  }

  // ---------------------------------------------------------------------
  // Blocks

  /** `block`: `{`, the statements, the last expression, `}` */
  lemma {:induction false} BlockRT(p: Parser, b: Block, pos: nat, n: nat)
    requires BlockReady(p, b, pos, n) == true
    ensures pos <= |p.toks| && p.ParseBlock(pos) == Ok(b, n)
    decreases b, |b.stmts| + 1
  {
    hide *;
    BlockOpen(p, b, pos, n);
    BlockReadyWf(p, b, pos, n);
    StmtsRT(p, b, 0, pos + 1, n);
    assert b.stmts[..0] == [];
    BlockEnter(p, pos);
  }

  /** The statements of `b` from the `k`-th on, read after the first `k` */
  lemma {:induction false} StmtsRT(p: Parser, b: Block, k: nat, pos: nat, n: nat)
    requires StmtsReady(p, b, k, pos, n) == true && WfBlock(b)
    ensures pos <= |p.toks| && p.ParseStmts(pos, b.stmts[..k]) == Ok(b, n)
    decreases b, |b.stmts| - k, 1
  {
    assert k <= |b.stmts|;
    hide *;
    if k == |b.stmts| {
      EndRT(p, b, pos, n);
    } else if WithBlock(b.stmts[k]) {
      WithStmtRT(p, b, k, pos, n);
    } else {
      SemiStmtRT(p, b, k, pos, n);
    }
  }

  /** The statements read so far are well formed */
  lemma StmtsPrefixWf(b: Block, k: nat)
    requires WfBlock(b) && k <= |b.stmts|
    ensures forall s | s in b.stmts[..k] :: WfExpr(s)
    ensures k < |b.stmts| ==> b.stmts[..k] + [b.stmts[k]] == b.stmts[..k + 1]
  {
  }

  /** A with-block statement, then the rest */
  lemma {:induction false} WithStmtRT(p: Parser, b: Block, k: nat, pos: nat, n: nat)
    requires StmtsReady(p, b, k, pos, n) == true && WfBlock(b) && k < |b.stmts| && WithBlock(b.stmts[k])
    ensures pos <= |p.toks| && p.ParseStmts(pos, b.stmts[..k]) == Ok(b, n)
    decreases b, |b.stmts| - k, 0
  {
    hide *;
    StmtsPrefixWf(b, k);
    var m := WithStmtSplit(p, b, k, pos, n);
    ExprRT(p, b.stmts[k], pos, m, Top, true);
    StmtsWithStep(p, pos, b.stmts[..k], b.stmts[k], m);
    StmtsRT(p, b, k + 1, m, n);
  }

  /** A statement and its `;`, then the rest */
  lemma {:induction false} SemiStmtRT(p: Parser, b: Block, k: nat, pos: nat, n: nat)
    requires StmtsReady(p, b, k, pos, n) == true && WfBlock(b) && k < |b.stmts| && !WithBlock(b.stmts[k])
    ensures pos <= |p.toks| && p.ParseStmts(pos, b.stmts[..k]) == Ok(b, n)
    decreases b, |b.stmts| - k, 0
  {
    hide *;
    StmtsPrefixWf(b, k);
    var m := SemiStmtSplit(p, b, k, pos, n);
    ExprRT(p, b.stmts[k], pos, m, Top, true);
    StmtsSemiStep(p, pos, b.stmts[..k], b.stmts[k], m);
    StmtsRT(p, b, k + 1, m + 1, n);
  }

  /** The last expression if any, then `}` */
  lemma {:induction false} EndRT(p: Parser, b: Block, pos: nat, n: nat)
    requires StmtsReady(p, b, |b.stmts|, pos, n) == true && WfBlock(b)
    ensures pos <= |p.toks| && p.ParseStmts(pos, b.stmts[..|b.stmts|]) == Ok(b, n)
    decreases b, 0, 0
  {
    hide *;
    StmtsPrefixWf(b, |b.stmts|);
    assert b.stmts[..|b.stmts|] == b.stmts;
    if b.last.Some? {
      LastSplit(p, b, pos, n);
      ExprRT(p, b.last.value, pos, n - 1, Top, true);
      StmtsLastStep(p, pos, b.stmts, b.last.value, n - 1);
    } else {
      CloseSplit(p, b, pos, n);
      StmtsCloseStep(p, pos, b.stmts);
    }
  }

  // ---------------------------------------------------------------------
  // Arguments

  /** `arguments` after `(`: the elements, separated by commas with an
      optional trailing comma, and the closing parenthesis */
  lemma {:induction false} ArgsRT(p: Parser, args: seq<Expr>, acc: seq<Expr>, pos: nat, n: nat, trailing: bool)
    requires ArgsReady(p, args, pos, n, trailing) == true && forall a | a in acc :: WfExpr(a)
    ensures pos <= |p.toks| && p.ParseArgs(pos, acc) == Ok(acc + args, n)
    decreases args, 4
  {
    hide *;
    if args == [] {
      ArgsEmpty(p, pos, n, trailing);
      ArgsCloseStep(p, pos, acc);
      assert acc + args == acc;
    } else {
      var m := ArgsSplit(p, args, pos, n, trailing);
      ArgReady(p, args[0], pos, m);
      ExprRT(p, args[0], pos, m, Top, true);
      if p.toks[m] == Sym(RParen) {
        ArgsLastStep(p, pos, acc, args, m);
      } else {
        ArgsMoreStep(p, pos, acc, args, m);
        ArgsRT(p, args[1..], acc + [args[0]], m + 1, n, trailing);
        ConsSplit(acc, args);
      }
    }
  }

  // ---------------------------------------------------------------------
  // Types and definitions

  lemma TypeRT(p: Parser, t: TypeExpr, pos: nat, n: nat)
    requires TypeReady(p, t, pos, n) == true
    ensures pos <= |p.toks| && p.ParseType(pos) == Ok(t, n)
  {
    hide *;
    match t {
      case Prim(name) =>
        PrimSplit(p, t, pos, n);
        TypePrimStep(p, pos, name);
      case TExpr(e) =>
        TypeSplit(p, t, pos, n);
        ExprRT(p, e, pos, n, Ctx(PrecAssign, false), false);
        TypeExprStep(p, pos, e, n);
    }
  }

  lemma ValueRT(p: Parser, v: Expr, pos: nat, n: nat)
    requires ValueReady(p, v, pos, n) == true
    ensures pos <= |p.toks| && p.ParseItemValue(pos) == Ok(v, n)
  {
    hide *;
    if WithBlock(v) {
      WithValueSplit(p, v, pos, n);
      ExprRT(p, v, pos, n, Top, true);
      ValueWithStep(p, pos, v, n);
    } else {
      SemiValueSplit(p, v, pos, n);
      ExprRT(p, v, pos, n - 1, Top, true);
      ValueSemiStep(p, pos, v, n - 1);
    }
  }

  lemma ItemRT(p: Parser, it: Item, pos: nat, n: nat)
    requires ItemReady(p, it, pos, n) == true
    ensures pos < n <= |p.toks| && p.ParseItem(pos) == Ok(it, n)
  {
    hide *;
    var m := ItemSplit(p, it, pos, n);
    if it.ty.Some? {
      TypeRT(p, it.ty.value, pos + 2, m);
    }
    ValueRT(p, it.value, m + 1, n);
    ItemStep(p, it, pos, m, n);
  }

  /** `source_file`: the definitions up to the end of the tokens */
  lemma {:induction false} ItemsRT(p: Parser, its: seq<Item>, acc: seq<Item>, pos: nat)
    requires ItemsReady(p, its, pos) == true && forall it | it in acc :: WfItem(it)
    ensures pos <= |p.toks| && p.ParseItems(pos, acc) == Ok(acc + its, |p.toks|)
    decreases its
  {
    hide *;
    if its == [] {
      EmptyItems(p, its, pos);
      ItemsEndStep(p, acc);
      assert acc + its == acc;
    } else {
      var m := ItemsSplit(p, its, pos);
      ItemRT(p, its[0], pos, m);
      ItemsStep(p, pos, acc, its[0], m);
      ItemsRT(p, its[1..], acc + [its[0]], m);
      ConsSplit(acc, its);
    }
  }
}

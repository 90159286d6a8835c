// A deterministic parser for the rules of grammar.js over the token stream.
//
// Expressions are parsed by precedence climbing. tree-sitter settles each
// shift/reduce choice of the grammar by comparing the precedence of the rule
// that would be reduced with that of the rule containing the next token, and
// on a tie by the reduced rule's associativity. The parser keeps that choice
// in an operator context `Ctx(level, right)`: the operand being parsed goes on
// absorbing an operator of precedence `l` exactly when `Absorbs(ctx, l)`.
//
//   binary_expr (181-202)        operand of `op`:   Ctx(level of op, false)
//   assign_expr (204-208)        right operand:     Ctx(0, true)
//   left_unary_expr, borrow_expr operand:           Ctx(11, false)
//   return_expr, break_expr      operand:           Ctx(0, false)  (prec.left, no level)
//   _typeexpr (76-80)            the whole type:    Ctx(0, false)  (stops at `=` only)
//
// `call_expr` is a postfix operator of level 12. `field_expr` and
// `right_unary_expr` carry no precedence in grammar.js; the parser takes
// their level as the parameter `fieldLevel`. The model as a whole uses
// PREC.field (13), so they are left-to-right postfix operators binding as
// tightly as a call (see the Findings of README.md for the level-0 reading).
//
// The conflict `[_expression, _statement]` (53-56) is resolved by taking the
// longest expression at the start of a statement; a `;`-less expression
// right before `}` is the block's `last_expr`.

module LunParser {
  import opened LunTokens
  import opened LunAst
  import LunLexer

  /** The operator context an operand is parsed in */
  datatype Ctx = Ctx(level: int, right: bool)

  /** The context of a whole expression: every operator continues it */
  const Top := Ctx(-1, false)

  /** Does an operand parsed under `c` absorb an operator of precedence `level`? */
  predicate Absorbs(c: Ctx, level: int) {
    level > c.level || (level == c.level && c.right)
  }

  datatype PResult<+T> = Ok(value: T, next: nat) | Fail(at: nat)

  datatype Parser = Parser(toks: seq<Token>, fieldLevel: int) {

    predicate SymAt(i: nat, p: Punct) { i < |toks| && toks[i] == Sym(p) }

    predicate KeywordAt(i: nat, w: string) { i < |toks| && toks[i] == Word(w) }

    predicate AnyWordAt(i: nat) { i < |toks| && toks[i].Word? }

    /** A successful parse from `pos` consumed at least one token */
    predicate Advances<T>(pos: nat, r: PResult<T>) {
      r.Ok? ==> pos < r.next <= |toks|
    }

    /** Does the token at `i` continue an operand parsed under `c`? */
    predicate Continues(i: nat, c: Ctx) {
      && i < |toks| && toks[i].Sym?
      && var p := toks[i].p;
         || (BinOpOf(p).Some? && Absorbs(c, BinLevel(BinOpOf(p).value)))
         || (p == Eq && Absorbs(c, PrecAssign))
         || (p == LParen && Absorbs(c, PrecCall))
         || ((p == Dot || p == DotStar) && Absorbs(c, fieldLevel))
    }

    /** Can the token at `i` begin an expression? (A word always can: one that
        is no keyword where an expression begins is an identifier there.) */
    predicate StartsExpr(i: nat) {
      && i < |toks|
      && match toks[i]
         case Word(_) => true
         case Int(_) => true
         case Str(_) => true
         case Sym(p) => p in {LParen, LBrace, Minus, Bang, Amp, AmpAmp}
    }

    /** What may follow `label :` in `labeled_expr` (grammar.js:128-137) */
    predicate LabelBodyAt(i: nat) {
      SymAt(i, LBrace) || KeywordAt(i, "while") || KeywordAt(i, "for") || KeywordAt(i, "loop")
    }

    // -------------------------------------------------------------------
    // Expressions

    /** `_expression` under context `c`. `labelOk` is false where the
        expression may be followed by the `:` that ends a type: there `path`
        (prec 14) wins over `labeled_expr`, so `name :` starts no label. */
    function ParseExpr(pos: nat, c: Ctx, labelOk: bool): (r: PResult<Expr>)
      requires pos <= |toks|
      ensures Advances(pos, r)
      ensures r.Ok? ==> WfExpr(r.value) && (r.value.Labeled? ==> labelOk)
      decreases |toks| - pos, 3
    {
      var h := ParsePrefix(pos, labelOk);
      if h.Fail? then Fail(h.at) else ParseInfix(h.value, h.next, c, labelOk)
    }

    /** The climbing loop: apply every infix and postfix operator that `c` absorbs */
    function ParseInfix(lhs: Expr, pos: nat, c: Ctx, labelOk: bool): (r: PResult<Expr>)
      requires pos <= |toks|
      ensures r.Ok? ==> pos <= r.next <= |toks| && (WfExpr(lhs) ==> WfExpr(r.value))
      ensures r.Ok? && r.value.Labeled? ==> r.value == lhs
      decreases |toks| - pos, 0
    {
      if !Continues(pos, c) then Ok(lhs, pos)
      else
        var p := toks[pos].p;
        if p == Eq then
          var rhs := ParseExpr(pos + 1, Ctx(PrecAssign, true), labelOk);
          if rhs.Fail? then Fail(rhs.at) else ParseInfix(Assign(lhs, rhs.value), rhs.next, c, labelOk)
        else if p == LParen then
          var args := ParseArgs(pos + 1, []);
          if args.Fail? then Fail(args.at) else ParseInfix(Call(lhs, args.value), args.next, c, labelOk)
        else if p == Dot then
          if AnyWordAt(pos + 1) then ParseInfix(Field(lhs, toks[pos + 1].w), pos + 2, c, labelOk)
          else Fail(pos + 1)
        else if p == DotStar then
          ParseInfix(Deref(lhs), pos + 1, c, labelOk)
        else
          var o := BinOpOf(p).value;
          var rhs := ParseExpr(pos + 1, Ctx(BinLevel(o), false), labelOk);
          if rhs.Fail? then Fail(rhs.at) else ParseInfix(Binary(o, lhs, rhs.value), rhs.next, c, labelOk)
    }

    /** `arguments` after its `(`: `sep(_expression, ',')` then `)` */
    function ParseArgs(pos: nat, acc: seq<Expr>): (r: PResult<seq<Expr>>)
      requires pos <= |toks| && forall a | a in acc :: WfExpr(a)
      ensures Advances(pos, r)
      ensures r.Ok? ==> forall a | a in r.value :: WfExpr(a)
      decreases |toks| - pos, 4
    {
      if SymAt(pos, RParen) then Ok(acc, pos + 1)
      else
        var e := ParseExpr(pos, Top, true);
        if e.Fail? then Fail(e.at)
        else if SymAt(e.next, Comma) then ParseArgs(e.next + 1, acc + [e.value])
        else if SymAt(e.next, RParen) then Ok(acc + [e.value], e.next + 1)
        else Fail(e.next)
    }

    /** A primary expression or a prefix form */
    function ParsePrefix(pos: nat, labelOk: bool): (r: PResult<Expr>)
      requires pos <= |toks|
      ensures Advances(pos, r)
      ensures r.Ok? ==> WfExpr(r.value) && (r.value.Labeled? ==> labelOk)
      decreases |toks| - pos, 2
    {
      if pos == |toks| then Fail(pos)
      else
        match toks[pos]
        case Int(l) => Ok(IntLitE(l), pos + 1)
        case Str(ps) => Ok(StrLitE(None, ps), pos + 1)
        case Sym(_) => ParseSymPrefix(pos, labelOk)
        case Word(_) => ParseWordPrefix(pos, labelOk)
    }

    /** Prefix operators, `paren_expr` and `block_expr` */
    function ParseSymPrefix(pos: nat, labelOk: bool): (r: PResult<Expr>)
      requires pos < |toks| && toks[pos].Sym?
      ensures Advances(pos, r)
      ensures r.Ok? ==> WfExpr(r.value) && !r.value.Labeled?
      decreases |toks| - pos, 1
    {
      var p := toks[pos].p;
      if p == Minus || p == Bang then
        var x := ParseExpr(pos + 1, Ctx(PrecUnary, false), labelOk);
        if x.Fail? then x else Ok(Unary(if p == Minus then Neg else Not, x.value), x.next)
      else if p == Amp then
        var m := KeywordAt(pos + 1, "mut");
        var x := ParseExpr(if m then pos + 2 else pos + 1, Ctx(PrecUnary, false), labelOk);
        if x.Fail? then x else Ok(Borrow(m, x.value), x.next)
      else if p == AmpAmp then
        // where only a prefix `&` is valid, `&&` is lexed as two of them
        var m := KeywordAt(pos + 1, "mut");
        var x := ParseExpr(if m then pos + 2 else pos + 1, Ctx(PrecUnary, false), labelOk);
        if x.Fail? then x else Ok(Borrow(false, Borrow(m, x.value)), x.next)
      else if p == LParen then
        var x := ParseExpr(pos + 1, Top, true);
        if x.Fail? then x
        else if SymAt(x.next, RParen) then Ok(Paren(x.value), x.next + 1)
        else Fail(x.next)
      else if p == LBrace then
        var b := ParseBlock(pos);
        if b.Fail? then Fail(b.at) else Ok(BlockE(b.value), b.next)
      else Fail(pos)
    }

    /** Expressions that begin with a word: keywords where they are valid,
        otherwise a tagged string, a labeled expression or a path */
    function ParseWordPrefix(pos: nat, labelOk: bool): (r: PResult<Expr>)
      requires pos < |toks| && toks[pos].Word?
      ensures Advances(pos, r)
      ensures r.Ok? ==> WfExpr(r.value) && (r.value.Labeled? ==> labelOk)
      decreases |toks| - pos, 1
    {
      var w := toks[pos].w;
      if w == "true" || w == "false" then Ok(BoolLit(w == "true"), pos + 1)
      else if w == "null" then Ok(Null, pos + 1)
      else if w == "orb" then ParsePathTail(pos + 1, Orb, [])
      else if w == "if" then ParseIf(pos)
      else if w == "while" then ParseWhile(pos)
      else if w == "loop" then
        var b := ParseBlock(pos + 1);
        if b.Fail? then Fail(b.at) else Ok(Loop(b.value), b.next)
      else if w == "return" then
        if StartsExpr(pos + 1) then
          var x := ParseExpr(pos + 1, Ctx(PrecAssign, false), labelOk);
          if x.Fail? then x else Ok(Return(Some(x.value)), x.next)
        else Ok(Return(None), pos + 1)
      else if w == "break" then ParseBreak(pos, labelOk)
      else if w == "continue" then
        if !SymAt(pos + 1, Colon) then Ok(Continue(None), pos + 1)
        else if AnyWordAt(pos + 2) then Ok(Continue(Some(toks[pos + 2].w)), pos + 3)
        else Fail(pos + 2)
      else if pos + 1 < |toks| && toks[pos + 1].Str? then
        Ok(StrLitE(Some(w), toks[pos + 1].pieces), pos + 2)
      else if labelOk && SymAt(pos + 1, Colon) && LabelBodyAt(pos + 2) then
        ParseLabeled(pos)
      else ParsePathTail(pos + 1, Name(w), [])
    }

    /** `repeat(seq('::', identifier))` after the root of a `path` */
    function ParsePathTail(pos: nat, root: PathRoot, segs: seq<string>): (r: PResult<Expr>)
      requires 0 < pos <= |toks|
      ensures r.Ok? ==> pos <= r.next <= |toks| && r.value.PathE? && r.value.root == root
      ensures r.Ok? ==> segs <= r.value.segs
      decreases |toks| - pos
    {
      if !SymAt(pos, ColonColon) then Ok(PathE(root, segs), pos)
      else if AnyWordAt(pos + 1) then ParsePathTail(pos + 2, root, segs + [toks[pos + 1].w])
      else Fail(pos + 1)
    }

    /** `break_expr`: an optional `: label`, then an optional operand */
    function ParseBreak(pos: nat, labelOk: bool): (r: PResult<Expr>)
      requires pos < |toks|
      ensures Advances(pos, r)
      ensures r.Ok? ==> WfExpr(r.value) && r.value.Break?
      decreases |toks| - pos, 0
    {
      if SymAt(pos + 1, Colon) then
        if !AnyWordAt(pos + 2) then Fail(pos + 2)
        else
          var l := toks[pos + 2].w;
          if StartsExpr(pos + 3) then
            var x := ParseExpr(pos + 3, Ctx(PrecAssign, false), labelOk);
            if x.Fail? then Fail(x.at) else Ok(Break(Some(l), Some(x.value)), x.next)
          else Ok(Break(Some(l), None), pos + 3)
      else if StartsExpr(pos + 1) then
        var x := ParseExpr(pos + 1, Ctx(PrecAssign, false), labelOk);
        if x.Fail? then Fail(x.at) else Ok(Break(None, Some(x.value)), x.next)
      else Ok(Break(None, None), pos + 1)
    }

    /** `if_expr` at the `if` keyword; `else` binds to the nearest `if` */
    function ParseIf(pos: nat): (r: PResult<Expr>)
      requires pos < |toks|
      ensures Advances(pos, r)
      ensures r.Ok? ==> WfExpr(r.value) && r.value.If?
      decreases |toks| - pos, 0
    {
      var cond := ParseExpr(pos + 1, Top, true);
      if cond.Fail? then Fail(cond.at)
      else
        var thn := ParseBlock(cond.next);
        if thn.Fail? then Fail(thn.at)
        else if !KeywordAt(thn.next, "else") then Ok(If(cond.value, thn.value, None), thn.next)
        else if KeywordAt(thn.next + 1, "if") then
          var els := ParseIf(thn.next + 1);
          if els.Fail? then els else Ok(If(cond.value, thn.value, Some(els.value)), els.next)
        else
          var els := ParseBlock(thn.next + 1);
          if els.Fail? then Fail(els.at)
          else Ok(If(cond.value, thn.value, Some(BlockE(els.value))), els.next)
    }

    /** `while_expr` at the `while` keyword */
    function ParseWhile(pos: nat): (r: PResult<Expr>)
      requires pos < |toks|
      ensures Advances(pos, r)
      ensures r.Ok? ==> WfExpr(r.value) && r.value.While?
      decreases |toks| - pos, 0
    {
      var cond := ParseExpr(pos + 1, Top, true);
      if cond.Fail? then Fail(cond.at)
      else
        var body := ParseBlock(cond.next);
        if body.Fail? then Fail(body.at) else Ok(While(cond.value, body.value), body.next)
    }

    /** `for_expr` at the `for` keyword; only `ParseLabeled` calls it */
    function ParseFor(pos: nat): (r: PResult<Expr>)
      requires pos < |toks|
      ensures Advances(pos, r)
      ensures r.Ok? ==> r.value.For? && WfExpr(r.value.iter) && WfBlock(r.value.body)
      decreases |toks| - pos, 0
    {
      if !AnyWordAt(pos + 1) then Fail(pos + 1)
      else if !KeywordAt(pos + 2, "in") then Fail(pos + 2)
      else
        var iter := ParseExpr(pos + 3, Top, true);
        if iter.Fail? then Fail(iter.at)
        else
          var body := ParseBlock(iter.next);
          if body.Fail? then Fail(body.at)
          else Ok(For(toks[pos + 1].w, iter.value, body.value), body.next)
    }

    /** `labeled_expr`: `label :` then a block, `while`, `for` or `loop` */
    function ParseLabeled(pos: nat): (r: PResult<Expr>)
      requires pos < |toks| && toks[pos].Word?
      ensures Advances(pos, r)
      ensures r.Ok? ==> WfExpr(r.value) && r.value.Labeled?
      decreases |toks| - pos, 0
    {
      var name := toks[pos].w;
      if !SymAt(pos + 1, Colon) then Fail(pos + 1)
      else if SymAt(pos + 2, LBrace) then
        var b := ParseBlock(pos + 2);
        if b.Fail? then Fail(b.at) else Ok(Labeled(name, BlockE(b.value)), b.next)
      else if KeywordAt(pos + 2, "while") then
        var w := ParseWhile(pos + 2);
        if w.Fail? then w else Ok(Labeled(name, w.value), w.next)
      else if KeywordAt(pos + 2, "for") then
        var f := ParseFor(pos + 2);
        if f.Fail? then f else Ok(Labeled(name, f.value), f.next)
      else if KeywordAt(pos + 2, "loop") then
        var b := ParseBlock(pos + 3);
        if b.Fail? then Fail(b.at) else Ok(Labeled(name, Loop(b.value)), b.next)
      else Fail(pos + 2)
    }

    // -------------------------------------------------------------------
    // Blocks

    /** `block`: `{`, statements, an optional last expression, `}` */
    function ParseBlock(pos: nat): (r: PResult<Block>)
      requires pos <= |toks|
      ensures Advances(pos, r)
      ensures r.Ok? ==> WfBlock(r.value) && SymAt(pos, LBrace) && SymAt(r.next - 1, RBrace)
      decreases |toks| - pos, 0
    {
      if !SymAt(pos, LBrace) then Fail(pos) else ParseStmts(pos + 1, [])
    }

    /** The body of a block after `{`. At each point the longest expression is
        taken: before `}` it is the block's `last_expr`; otherwise it is a
        statement, which needs `;` unless it is a with-block expression. */
    function ParseStmts(pos: nat, acc: seq<Expr>): (r: PResult<Block>)
      requires pos <= |toks| && forall s | s in acc :: WfExpr(s)
      ensures Advances(pos, r)
      ensures r.Ok? ==> WfBlock(r.value) && SymAt(r.next - 1, RBrace)
      ensures r.Ok? ==> acc <= r.value.stmts
      decreases |toks| - pos, 4
    {
      if pos == |toks| then Fail(pos)
      else if SymAt(pos, RBrace) then Ok(Block(acc, None), pos + 1)
      else
        var e := ParseExpr(pos, Top, true);
        if e.Fail? then Fail(e.at)
        else if SymAt(e.next, RBrace) then Ok(Block(acc, Some(e.value)), e.next + 1)
        else if WithBlock(e.value) then ParseStmts(e.next, acc + [e.value])
        else if SymAt(e.next, Semi) then ParseStmts(e.next + 1, acc + [e.value])
        else Fail(e.next)
    }

    // -------------------------------------------------------------------
    // Types and items

    /** `_typeexpr`: a primitive type keyword, or an expression that does not
        begin with a label. Its `prec.left(PREC.logor)` decides only the
        choice it competes in, the `=` of `assign_expr` that may follow the
        type, so every other operator goes on extending the type. */
    function ParseType(pos: nat): (r: PResult<TypeExpr>)
      requires pos <= |toks|
      ensures Advances(pos, r)
      ensures r.Ok? ==> WfType(r.value)
    {
      if AnyWordAt(pos) && toks[pos].w in PrimitiveTypes then Ok(Prim(toks[pos].w), pos + 1)
      else
        var e := ParseExpr(pos, Ctx(PrecAssign, false), false);
        if e.Fail? then Fail(e.at) else Ok(TExpr(e.value), e.next)
    }

    /** The value of a `global_def_item` and its terminator: `;` after a
        without-block expression, an optional `;` after a with-block one */
    function ParseItemValue(pos: nat): (r: PResult<Expr>)
      requires pos <= |toks|
      ensures Advances(pos, r)
      ensures r.Ok? ==> WfExpr(r.value)
    {
      var v := ParseExpr(pos, Top, true);
      if v.Fail? then v
      else if SymAt(v.next, Semi) then Ok(v.value, v.next + 1)
      else if WithBlock(v.value) then v
      else Fail(v.next)
    }

    /** `global_def_item`: `name : [type] (':' | '=') value`. A `::` right
        after the name is the two colons with no type between them. */
    function ParseItem(pos: nat): (r: PResult<Item>)
      requires pos <= |toks|
      ensures Advances(pos, r)
      ensures r.Ok? ==> WfItem(r.value)
    {
      if !AnyWordAt(pos) then Fail(pos)
      else
        var name := toks[pos].w;
        if SymAt(pos + 1, ColonColon) then
          var v := ParseItemValue(pos + 2);
          if v.Fail? then Fail(v.at) else Ok(GlobalDef(name, None, true, v.value), v.next)
        else if !SymAt(pos + 1, Colon) then Fail(pos + 1)
        else if SymAt(pos + 2, Colon) || SymAt(pos + 2, Eq) then
          var v := ParseItemValue(pos + 3);
          if v.Fail? then Fail(v.at) else Ok(GlobalDef(name, None, SymAt(pos + 2, Colon), v.value), v.next)
        else
          var t := ParseType(pos + 2);
          if t.Fail? then Fail(t.at)
          else if !(SymAt(t.next, Colon) || SymAt(t.next, Eq)) then Fail(t.next)
          else
            var v := ParseItemValue(t.next + 1);
            if v.Fail? then Fail(v.at)
            else Ok(GlobalDef(name, Some(t.value), SymAt(t.next, Colon), v.value), v.next)
    }

    /** `source_file`: items up to the end of the tokens */
    function ParseItems(pos: nat, acc: seq<Item>): (r: PResult<seq<Item>>)
      requires pos <= |toks| && forall it | it in acc :: WfItem(it)
      ensures r.Ok? ==> r.next == |toks| && acc <= r.value
      ensures r.Ok? ==> forall it | it in r.value :: WfItem(it)
      decreases |toks| - pos
    {
      if pos == |toks| then Ok(acc, pos)
      else
        var it := ParseItem(pos);
        if it.Fail? then Fail(it.at) else ParseItems(it.next, acc + [it.value])
    }
  }

  /** The whole pipeline: lex, drop the trivia, parse the items */
  function ParseSource(text: string): (r: PResult<seq<Item>>)
    ensures r.Ok? ==> forall it | it in r.value :: WfItem(it)
  {
    match LunLexer.Lex(text)
    case LexError(at) => Fail(at)
    case Lexed(ls) => Parser(TokensOf(ls), PrecField).ParseItems(0, [])
  }
}

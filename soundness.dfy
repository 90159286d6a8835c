// The converse of the round trip: whatever the parser accepts is the
// printed form of the tree it returns. The tokens and the print agree up to
// three spellings the printer does not reproduce: a `&&` read as two prefix
// `&` (grammar.js:220-224), a `::` right after a definition's name read as
// two colons (grammar.js:65-74), and the trailing `,` of `arguments`
// (grammar.js:226). A `;` after a with-block definition value, which the
// printer never writes (grammar.js:70-73), is kept as a flag per definition.

module LunSoundness {
  import opened LunTokens
  import opened LunAst
  import opened LunParser
  import opened LunPrinter
  import LunLexer

  // ---------------------------------------------------------------------
  // Printed tokens against read tokens

  /** `t` is `pr` as read: token for token, except that a `&&` of `t`
      stands for `& &`, a `::` for `: :`, and a `,` right before a `)` for
      nothing */
  predicate Respells(pr: seq<Token>, t: seq<Token>)
    decreases |t|
  {
    if t == [] then pr == []
    else if pr == [] then false
    else if pr[0] == t[0] then Respells(pr[1..], t[1..])
    else if t[0] == Sym(AmpAmp) then |pr| >= 2 && pr[..2] == [Sym(Amp), Sym(Amp)] && Respells(pr[2..], t[1..])
    else if t[0] == Sym(ColonColon) then |pr| >= 2 && pr[..2] == [Sym(Colon), Sym(Colon)] && Respells(pr[2..], t[1..])
    else t[0] == Sym(Comma) && pr[0] == Sym(RParen) && |t| >= 2 && t[1] == Sym(RParen) && Respells(pr[1..], t[2..])
  }

  /** Tokens spelled as printed respell themselves */
  lemma {:induction false} RespellsRefl(t: seq<Token>)
    ensures Respells(t, t)
    decreases |t|
  {
    if t != [] { RespellsRefl(t[1..]); }
  }

  /** The units respelling goes by: one token as printed, `&&` for two
      `&`, `::` for two `:`, and `, )` for `)` */
  predicate Unit(a: seq<Token>, b: seq<Token>) {
    || (|a| == 1 && a == b)
    || (b == [Sym(AmpAmp)] && a == [Sym(Amp), Sym(Amp)])
    || (b == [Sym(ColonColon)] && a == [Sym(Colon), Sym(Colon)])
    || (b == [Sym(Comma), Sym(RParen)] && a == [Sym(RParen)])
  }

  /** A respelling that reads nothing prints nothing */
  lemma RespellsEmpty(pr: seq<Token>)
    requires Respells(pr, [])
    ensures pr == []
  {
  }

  /** A respelling begins with a unit */
  lemma RespellsHead(pr: seq<Token>, t: seq<Token>) returns (m: nat, n: nat)
    requires Respells(pr, t) && t != []
    ensures m <= |pr| && n <= |t| && Unit(pr[..m], t[..n]) && Respells(pr[m..], t[n..])
  {
    if pr[0] == t[0] {
      m, n := 1, 1;
    } else if t[0] == Sym(AmpAmp) || t[0] == Sym(ColonColon) {
      m, n := 2, 1;
    } else {
      m, n := 1, 2;
      assert t[..2] == [t[0], t[1]];
    }
  }

  /** A unit, then a respelling */
  lemma RespellsUnit(a: seq<Token>, b: seq<Token>, pr: seq<Token>, t: seq<Token>)
    requires Unit(a, b) && Respells(pr, t)
    ensures Respells(a + pr, b + t)
  {
    var a' := a + pr;
    var b' := b + t;
    if |a| == 1 && a == b {
      assert a'[1..] == pr && b'[1..] == t;
    } else if |b| == 1 {
      assert a'[..2] == a && a'[2..] == pr && b'[1..] == t;
    } else {
      assert a'[1..] == pr && b'[2..] == t;
    }
  }

  /** Respelling goes piece by piece */
  lemma {:induction false} RespellsCat(p1: seq<Token>, t1: seq<Token>, p2: seq<Token>, t2: seq<Token>)
    requires Respells(p1, t1) && Respells(p2, t2)
    ensures Respells(p1 + p2, t1 + t2)
    decreases |t1|
  {
    hide *;
    if t1 == [] {
      RespellsEmpty(p1);
      assert p1 + p2 == p2 && t1 + t2 == t2;
    } else {
      var m, n := RespellsHead(p1, t1);
      RespellsCat(p1[m..], t1[n..], p2, t2);
      RespellsUnit(p1[..m], t1[..n], p1[m..] + p2, t1[n..] + t2);
      assert p1[..m] + (p1[m..] + p2) == p1 + p2;
      assert t1[..n] + (t1[n..] + t2) == t1 + t2;
    }
  }

  /** `&&` stands for two `&` */
  lemma RespellsAmpAmp(pr: seq<Token>, t: seq<Token>)
    requires Respells(pr, t)
    ensures Respells([Sym(Amp), Sym(Amp)] + pr, [Sym(AmpAmp)] + t)
  {
    var pr' := [Sym(Amp), Sym(Amp)] + pr;
    var t' := [Sym(AmpAmp)] + t;
    assert pr'[..2] == [Sym(Amp), Sym(Amp)] && pr'[2..] == pr && t'[1..] == t;
  }

  /** `::` after a name stands for two colons */
  lemma RespellsColonColon(pr: seq<Token>, t: seq<Token>)
    requires Respells(pr, t)
    ensures Respells([Sym(Colon), Sym(Colon)] + pr, [Sym(ColonColon)] + t)
  {
    var pr' := [Sym(Colon), Sym(Colon)] + pr;
    var t' := [Sym(ColonColon)] + t;
    assert pr'[..2] == [Sym(Colon), Sym(Colon)] && pr'[2..] == pr && t'[1..] == t;
  }

  /** A trailing `,` before `)` stands for nothing */
  lemma RespellsTrailingComma()
    ensures Respells([Sym(RParen)], [Sym(Comma), Sym(RParen)])
  {
    var t := [Sym(Comma), Sym(RParen)];
    assert t[2..] == [];
    assert [Sym(RParen)][1..] == [];
  }

  // ---------------------------------------------------------------------
  // Respelling stretches of the token stream

  /** The tokens of `t` from `i` up to `j` respell `pr` */
  predicate RespellsAt(pr: seq<Token>, t: seq<Token>, i: nat, j: nat) {
    i <= j <= |t| && Respells(pr, t[i..j])
  }

  /** Two adjacent stretches respell the two pieces */
  lemma Glue(a: seq<Token>, b: seq<Token>, t: seq<Token>, i: nat, j: nat, k: nat)
    requires RespellsAt(a, t, i, j) && RespellsAt(b, t, j, k)
    ensures RespellsAt(a + b, t, i, k)
  {
    RespellsCat(a, t[i..j], b, t[j..k]);
    assert t[i..j] + t[j..k] == t[i..k];
  }

  /** An empty stretch respells nothing */
  lemma Nothing(t: seq<Token>, i: nat)
    requires i <= |t|
    ensures RespellsAt([], t, i, i)
  {
    RespellsRefl([]);
  }

  /** One token spelled as printed */
  lemma One(x: Token, t: seq<Token>, i: nat)
    requires i < |t| && t[i] == x
    ensures RespellsAt([x], t, i, i + 1)
  {
    assert t[i..i + 1] == [x];
    RespellsRefl([x]);
  }

  /** A printed token, then a stretch */
  lemma Lead1(x: Token, b: seq<Token>, t: seq<Token>, i: nat, k: nat)
    requires i < |t| && t[i] == x && RespellsAt(b, t, i + 1, k)
    ensures RespellsAt([x] + b, t, i, k)
  {
    One(x, t, i);
    Glue([x], b, t, i, i + 1, k);
  }

  /** A stretch, then a printed token */
  lemma Trail1(a: seq<Token>, x: Token, t: seq<Token>, i: nat, j: nat)
    requires j < |t| && t[j] == x && RespellsAt(a, t, i, j)
    ensures RespellsAt(a + [x], t, i, j + 1)
  {
    One(x, t, j);
    Glue(a, [x], t, i, j, j + 1);
  }

  /** Two tokens spelled as printed */
  lemma Two(x: Token, y: Token, t: seq<Token>, i: nat)
    requires i + 1 < |t| && t[i] == x && t[i + 1] == y
    ensures RespellsAt([x, y], t, i, i + 2)
  {
    One(y, t, i + 1);
    Lead1(x, [y], t, i, i + 2);
    assert [x] + [y] == [x, y];
  }

  /** Three tokens spelled as printed */
  lemma Three(x: Token, y: Token, z: Token, t: seq<Token>, i: nat)
    requires i + 2 < |t| && t[i] == x && t[i + 1] == y && t[i + 2] == z
    ensures RespellsAt([x, y, z], t, i, i + 3)
  {
    Two(y, z, t, i + 1);
    Lead1(x, [y, z], t, i, i + 3);
    assert [x] + [y, z] == [x, y, z];
  }

  /** `&&` read as two `&` */
  lemma AmpAmpAt(b: seq<Token>, t: seq<Token>, i: nat, k: nat)
    requires i < |t| && t[i] == Sym(AmpAmp) && RespellsAt(b, t, i + 1, k)
    ensures RespellsAt([Sym(Amp), Sym(Amp)] + b, t, i, k)
  {
    RespellsAmpAmp(b, t[i + 1..k]);
    assert [Sym(AmpAmp)] + t[i + 1..k] == t[i..k];
  }

  /** `::` read as two colons */
  lemma ColonColonAt(b: seq<Token>, t: seq<Token>, i: nat, k: nat)
    requires i < |t| && t[i] == Sym(ColonColon) && RespellsAt(b, t, i + 1, k)
    ensures RespellsAt([Sym(Colon), Sym(Colon)] + b, t, i, k)
  {
    RespellsColonColon(b, t[i + 1..k]);
    assert [Sym(ColonColon)] + t[i + 1..k] == t[i..k];
  }

  /** `-` or `!`, then its operand */
  lemma UnaryAt(t: seq<Token>, pos: nat, q: Punct, x: Expr, n: nat)
    requires pos < |t| && t[pos] == Sym(q) && (q == Minus || q == Bang) && RespellsAt(Print(x), t, pos + 1, n)
    ensures RespellsAt(Print(Unary(if q == Minus then Neg else Not, x)), t, pos, n)
  {
    hide Print;
    PrintPrefixForms(if q == Minus then Neg else Not, x);
    Lead1(Sym(q), Print(x), t, pos, n);
  }

  /** `(`, an expression and `)` */
  lemma ParenAt(t: seq<Token>, pos: nat, x: Expr, n: nat)
    requires pos < |t| && t[pos] == Sym(LParen) && RespellsAt(Print(x), t, pos + 1, n) && n < |t| && t[n] == Sym(RParen)
    ensures RespellsAt(Print(Paren(x)), t, pos, n + 1)
  {
    hide Print;
    PrintPrefixForms(Neg, x);
    Lead1(Sym(LParen), Print(x), t, pos, n);
    Trail1([Sym(LParen)] + Print(x), Sym(RParen), t, pos, n);
  }

  /** `, )` respells `)` */
  lemma CommaClose(t: seq<Token>, i: nat)
    requires i + 1 < |t| && t[i] == Sym(Comma) && t[i + 1] == Sym(RParen)
    ensures RespellsAt([Sym(RParen)], t, i, i + 2)
  {
    assert t[i..i + 2] == [Sym(Comma), Sym(RParen)];
    RespellsTrailingComma();
  }

  // ---------------------------------------------------------------------
  // Expressions

  /** What `_expression` accepts is the print of the tree it returns */
  lemma {:induction false} ExprSound(p: Parser, pos: nat, c: Ctx, lk: bool)
    requires pos <= |p.toks| && p.ParseExpr(pos, c, lk).Ok?
    ensures var r := p.ParseExpr(pos, c, lk); RespellsAt(Print(r.value), p.toks, pos, r.next)
    decreases |p.toks| - pos, 5
  {
    hide Print, Respells, PrintBlock, PrintBody, PrintArgs, PrintStmt, Parser.ParseExpr, Parser.ParseInfix, Parser.ParseArgs, Parser.ParsePrefix, Parser.ParseSymPrefix, Parser.ParseWordPrefix, Parser.ParsePathTail, Parser.ParseBreak, Parser.ParseIf, Parser.ParseWhile, Parser.ParseFor, Parser.ParseLabeled, Parser.ParseBlock, Parser.ParseStmts, Parser.ParseType, Parser.ParseItemValue, Parser.ParseItem, Parser.ParseItems, WfExpr, WfBlock, WithBlock, RespellsAt;
    ExprStep(p, pos, c, lk);
    var h := p.ParsePrefix(pos, lk);
    PrefixSound(p, pos, lk);
    InfixSound(p, h.value, pos, h.next, c, lk);
  }

  /** The climbing loop extends the respelled stretch operator by operator */
  lemma {:induction false} InfixSound(p: Parser, lhs: Expr, start: nat, pos: nat, c: Ctx, lk: bool)
    requires start <= pos <= |p.toks| && RespellsAt(Print(lhs), p.toks, start, pos)
    requires p.ParseInfix(lhs, pos, c, lk).Ok?
    ensures var r := p.ParseInfix(lhs, pos, c, lk); RespellsAt(Print(r.value), p.toks, start, r.next)
    decreases |p.toks| - pos, 0
  {
    hide Print, Respells, PrintBlock, PrintBody, PrintArgs, PrintStmt, Parser.ParseExpr, Parser.ParseInfix, Parser.ParseArgs, Parser.ParsePrefix, Parser.ParseSymPrefix, Parser.ParseWordPrefix, Parser.ParsePathTail, Parser.ParseBreak, Parser.ParseIf, Parser.ParseWhile, Parser.ParseFor, Parser.ParseLabeled, Parser.ParseBlock, Parser.ParseStmts, Parser.ParseType, Parser.ParseItemValue, Parser.ParseItem, Parser.ParseItems, WfExpr, WfBlock, WithBlock, RespellsAt;
    var t := p.toks;
    if !p.Continues(pos, c) {
      InfixStop(p, lhs, pos, c, lk);
    } else {
      InfixOn(p, lhs, pos, c, lk);
      var q := t[pos].p;
      if q == Eq {
        var rhs := p.ParseExpr(pos + 1, Ctx(PrecAssign, true), lk);
        ExprSound(p, pos + 1, Ctx(PrecAssign, true), lk);
        Trail1(Print(lhs), Sym(Eq), t, start, pos);
        Glue(Print(lhs) + [Sym(Eq)], Print(rhs.value), t, start, pos + 1, rhs.next);
        PrintInfix(lhs, rhs.value);
        InfixSound(p, Assign(lhs, rhs.value), start, rhs.next, c, lk);
      } else if q == LParen {
        var args := p.ParseArgs(pos + 1, []);
        var added := ArgsSound(p, pos + 1, []);
        assert [] + added == args.value;
        assert added == args.value;
        Trail1(Print(lhs), Sym(LParen), t, start, pos);
        Glue(Print(lhs) + [Sym(LParen)], PrintArgs(args.value, false) + [Sym(RParen)], t, start, pos + 1, args.next);
        CallPrint(lhs, args.value);
        InfixSound(p, Call(lhs, args.value), start, args.next, c, lk);
      } else if q == Dot {
        var f := t[pos + 1].w;
        Two(Sym(Dot), Word(f), t, pos);
        Glue(Print(lhs), [Sym(Dot), Word(f)], t, start, pos, pos + 2);
        PrintPostfix(lhs, f);
        InfixSound(p, Field(lhs, f), start, pos + 2, c, lk);
      } else if q == DotStar {
        Trail1(Print(lhs), Sym(DotStar), t, start, pos);
        PrintPostfix(lhs, "");
        InfixSound(p, Deref(lhs), start, pos + 1, c, lk);
      } else {
        var o := BinOpOf(q).value;
        var rhs := p.ParseExpr(pos + 1, Ctx(BinLevel(o), false), lk);
        ExprSound(p, pos + 1, Ctx(BinLevel(o), false), lk);
        Trail1(Print(lhs), Sym(BinPunct(o)), t, start, pos);
        Glue(Print(lhs) + [Sym(BinPunct(o))], Print(rhs.value), t, start, pos + 1, rhs.next);
        PrintBinary(o, lhs, rhs.value);
        InfixSound(p, Binary(o, lhs, rhs.value), start, rhs.next, c, lk);
      }
    }
  }

  /** The climbing loop stops at a token that does not continue the operand */
  lemma InfixStop(p: Parser, lhs: Expr, pos: nat, c: Ctx, lk: bool)
    requires pos <= |p.toks| && !p.Continues(pos, c)
    ensures p.ParseInfix(lhs, pos, c, lk) == Ok(lhs, pos)
  {
  }

  /** One turn of the climbing loop, by the operator at `pos` */
  lemma InfixOn(p: Parser, lhs: Expr, pos: nat, c: Ctx, lk: bool)
    requires pos <= |p.toks| && p.Continues(pos, c) && p.ParseInfix(lhs, pos, c, lk).Ok?
    ensures pos < |p.toks| && p.toks[pos].Sym?
    ensures var r := p.ParseInfix(lhs, pos, c, lk);
            var q := p.toks[pos].p;
            && (q == Eq ==>
                 var rhs := p.ParseExpr(pos + 1, Ctx(PrecAssign, true), lk);
                 rhs.Ok? && r == p.ParseInfix(Assign(lhs, rhs.value), rhs.next, c, lk))
            && (q == LParen ==>
                 var args := p.ParseArgs(pos + 1, []);
                 args.Ok? && r == p.ParseInfix(Call(lhs, args.value), args.next, c, lk))
            && (q == Dot ==>
                 p.AnyWordAt(pos + 1) && r == p.ParseInfix(Field(lhs, p.toks[pos + 1].w), pos + 2, c, lk))
            && (q == DotStar ==> r == p.ParseInfix(Deref(lhs), pos + 1, c, lk))
            && (q !in {Eq, LParen, Dot, DotStar} ==>
                 && BinOpOf(q).Some?
                 && var rhs := p.ParseExpr(pos + 1, Ctx(BinLevel(BinOpOf(q).value), false), lk);
                    rhs.Ok? && r == p.ParseInfix(Binary(BinOpOf(q).value, lhs, rhs.value), rhs.next, c, lk))
  {
  }

  /** `arguments` after `(`: the arguments read, printed without a trailing
      comma, then `)`; no argument means the `)` came at once */
  lemma {:induction false} ArgsSound(p: Parser, pos: nat, acc: seq<Expr>) returns (added: seq<Expr>)
    requires pos <= |p.toks| && (forall a | a in acc :: WfExpr(a)) && p.ParseArgs(pos, acc).Ok?
    ensures var r := p.ParseArgs(pos, acc);
            && r.value == acc + added
            && RespellsAt(PrintArgs(added, false) + [Sym(RParen)], p.toks, pos, r.next)
            && (added == [] ==> p.SymAt(pos, RParen) && r.next == pos + 1)
    decreases |p.toks| - pos, 6
  {
    hide Print, Respells, PrintBlock, PrintBody, PrintArgs, PrintStmt, Parser.ParseExpr, Parser.ParseInfix, Parser.ParseArgs, Parser.ParsePrefix, Parser.ParseSymPrefix, Parser.ParseWordPrefix, Parser.ParsePathTail, Parser.ParseBreak, Parser.ParseIf, Parser.ParseWhile, Parser.ParseFor, Parser.ParseLabeled, Parser.ParseBlock, Parser.ParseStmts, Parser.ParseType, Parser.ParseItemValue, Parser.ParseItem, Parser.ParseItems, WfExpr, WfBlock, WithBlock, RespellsAt;
    ArgsStep(p, pos, acc);
    var t := p.toks;
    if p.SymAt(pos, RParen) {
      added := [];
      PrintArgsShort(Null);
      Appended(acc, Null, []);
      One(Sym(RParen), t, pos);
    } else {
      var e := p.ParseExpr(pos, Top, true);
      ExprSound(p, pos, Top, true);
      if p.SymAt(e.next, Comma) {
        added := ArgsMoreSound(p, pos, acc);
      } else {
        added := [e.value];
        PrintArgsShort(e.value);
        Trail1(Print(e.value), Sym(RParen), t, pos, e.next);
      }
    }
  }

  /** An argument, a comma, and the rest of the arguments */
  lemma {:induction false} ArgsMoreSound(p: Parser, pos: nat, acc: seq<Expr>) returns (added: seq<Expr>)
    requires pos <= |p.toks| && (forall a | a in acc :: WfExpr(a)) && p.ParseArgs(pos, acc).Ok?
    requires !p.SymAt(pos, RParen)
    requires var e := p.ParseExpr(pos, Top, true);
             e.Ok? && p.SymAt(e.next, Comma) && RespellsAt(Print(e.value), p.toks, pos, e.next)
    ensures var r := p.ParseArgs(pos, acc);
            && r.value == acc + added && added != []
            && RespellsAt(PrintArgs(added, false) + [Sym(RParen)], p.toks, pos, r.next)
    decreases |p.toks| - pos, 5
  {
    hide Print, Respells, PrintBlock, PrintBody, PrintArgs, PrintStmt, Parser.ParseExpr, Parser.ParseInfix, Parser.ParseArgs, Parser.ParsePrefix, Parser.ParseSymPrefix, Parser.ParseWordPrefix, Parser.ParsePathTail, Parser.ParseBreak, Parser.ParseIf, Parser.ParseWhile, Parser.ParseFor, Parser.ParseLabeled, Parser.ParseBlock, Parser.ParseStmts, Parser.ParseType, Parser.ParseItemValue, Parser.ParseItem, Parser.ParseItems, WfExpr, WfBlock, WithBlock, RespellsAt;
    ArgsStep(p, pos, acc);
    var t := p.toks;
    var e := p.ParseExpr(pos, Top, true);
    var more := ArgsSound(p, e.next + 1, acc + [e.value]);
    var r := p.ParseArgs(e.next + 1, acc + [e.value]);
    added := [e.value] + more;
    Appended(acc, e.value, more);
    if more == [] {
      PrintArgsShort(e.value);
      CommaClose(t, e.next);
      Glue(Print(e.value), [Sym(RParen)], t, pos, e.next, e.next + 2);
    } else {
      PrintArgsCons(e.value, more);
      Trail1(Print(e.value), Sym(Comma), t, pos, e.next);
      Glue(Print(e.value) + [Sym(Comma)], PrintArgs(more, false) + [Sym(RParen)], t, pos, e.next + 1, r.next);
    }
  }

  /** A primary expression or a prefix form */
  lemma {:induction false} PrefixSound(p: Parser, pos: nat, lk: bool)
    requires pos <= |p.toks| && p.ParsePrefix(pos, lk).Ok?
    ensures var r := p.ParsePrefix(pos, lk); RespellsAt(Print(r.value), p.toks, pos, r.next)
    decreases |p.toks| - pos, 4
  {
    hide Print, Respells, PrintBlock, PrintBody, PrintArgs, PrintStmt, Parser.ParseExpr, Parser.ParseInfix, Parser.ParseArgs, Parser.ParsePrefix, Parser.ParseSymPrefix, Parser.ParseWordPrefix, Parser.ParsePathTail, Parser.ParseBreak, Parser.ParseIf, Parser.ParseWhile, Parser.ParseFor, Parser.ParseLabeled, Parser.ParseBlock, Parser.ParseStmts, Parser.ParseType, Parser.ParseItemValue, Parser.ParseItem, Parser.ParseItems, WfExpr, WfBlock, WithBlock, RespellsAt;
    PrefixStep(p, pos, lk);
    match p.toks[pos]
    case Int(l) =>
      PrintInt(l);
      One(Int(l), p.toks, pos);
    case Str(ps) =>
      PrintLeaves(false, "", ps);
      One(Str(ps), p.toks, pos);
    case Sym(_) => SymPrefixSound(p, pos, lk);
    case Word(_) => WordPrefixSound(p, pos, lk);
  }

  /** Prefix operators, parentheses and blocks; `&&` is two borrows */
  lemma {:induction false} SymPrefixSound(p: Parser, pos: nat, lk: bool)
    requires pos < |p.toks| && p.toks[pos].Sym? && p.ParseSymPrefix(pos, lk).Ok?
    ensures var r := p.ParseSymPrefix(pos, lk); RespellsAt(Print(r.value), p.toks, pos, r.next)
    decreases |p.toks| - pos, 3
  {
    hide Print, Respells, PrintBlock, PrintBody, PrintArgs, PrintStmt, Parser.ParseExpr, Parser.ParseInfix, Parser.ParseArgs, Parser.ParsePrefix, Parser.ParseSymPrefix, Parser.ParseWordPrefix, Parser.ParsePathTail, Parser.ParseBreak, Parser.ParseIf, Parser.ParseWhile, Parser.ParseFor, Parser.ParseLabeled, Parser.ParseBlock, Parser.ParseStmts, Parser.ParseType, Parser.ParseItemValue, Parser.ParseItem, Parser.ParseItems, WfExpr, WfBlock, WithBlock, RespellsAt;
    SymStep(p, pos, lk);
    var t := p.toks;
    var q := t[pos].p;
    if q == Minus || q == Bang {
      var x := p.ParseExpr(pos + 1, Ctx(PrecUnary, false), lk);
      ExprSound(p, pos + 1, Ctx(PrecUnary, false), lk);
      UnaryAt(t, pos, q, x.value, x.next);
    } else if q == Amp || q == AmpAmp {
      BorrowSound(p, pos, lk);
    } else if q == LParen {
      var x := p.ParseExpr(pos + 1, Top, true);
      ExprSound(p, pos + 1, Top, true);
      ParenAt(t, pos, x.value, x.next);
    } else {
      var b := p.ParseBlock(pos);
      BlockSound(p, pos);
      PrintBlockForms(Null, b.value);
    }
  }

  /** `&`, `& mut`, and `&&` read as two of them */
  lemma {:induction false} BorrowSound(p: Parser, pos: nat, lk: bool)
    requires pos < |p.toks| && (p.toks[pos] == Sym(Amp) || p.toks[pos] == Sym(AmpAmp)) && p.ParseSymPrefix(pos, lk).Ok?
    ensures var r := p.ParseSymPrefix(pos, lk); RespellsAt(Print(r.value), p.toks, pos, r.next)
    decreases |p.toks| - pos, 2
  {
    hide Print, Respells, PrintBlock, PrintBody, PrintArgs, PrintStmt, Parser.ParseExpr, Parser.ParseInfix, Parser.ParseArgs, Parser.ParsePrefix, Parser.ParseSymPrefix, Parser.ParseWordPrefix, Parser.ParsePathTail, Parser.ParseBreak, Parser.ParseIf, Parser.ParseWhile, Parser.ParseFor, Parser.ParseLabeled, Parser.ParseBlock, Parser.ParseStmts, Parser.ParseType, Parser.ParseItemValue, Parser.ParseItem, Parser.ParseItems, WfExpr, WfBlock, WithBlock, RespellsAt;
    SymStep(p, pos, lk);
    var t := p.toks;
    var q := t[pos].p;
    var m := p.KeywordAt(pos + 1, "mut");
    var s := if m then pos + 2 else pos + 1;
    var x := p.ParseExpr(s, Ctx(PrecUnary, false), lk);
    ExprSound(p, s, Ctx(PrecUnary, false), lk);
    var operand := if m then [Word("mut")] + Print(x.value) else Print(x.value);
    if m {
      Lead1(Word("mut"), Print(x.value), t, pos + 1, x.next);
    }
    PrintBorrows(m, x.value);
    if q == Amp {
      Lead1(Sym(Amp), operand, t, pos, x.next);
    } else {
      AmpAmpAt(operand, t, pos, x.next);
    }
  }

  /** Keyword forms, tagged strings, labels and paths */
  lemma {:induction false} WordPrefixSound(p: Parser, pos: nat, lk: bool)
    requires pos < |p.toks| && p.toks[pos].Word? && p.ParseWordPrefix(pos, lk).Ok?
    ensures var r := p.ParseWordPrefix(pos, lk); RespellsAt(Print(r.value), p.toks, pos, r.next)
    decreases |p.toks| - pos, 3
  {
    hide Print, Respells, PrintBlock, PrintBody, PrintArgs, PrintStmt, Parser.ParseExpr, Parser.ParseInfix, Parser.ParseArgs, Parser.ParsePrefix, Parser.ParseSymPrefix, Parser.ParseWordPrefix, Parser.ParsePathTail, Parser.ParseBreak, Parser.ParseIf, Parser.ParseWhile, Parser.ParseFor, Parser.ParseLabeled, Parser.ParseBlock, Parser.ParseStmts, Parser.ParseType, Parser.ParseItemValue, Parser.ParseItem, Parser.ParseItems, WfExpr, WfBlock, WithBlock, RespellsAt;
    WordStep(p, pos, lk);
    var t := p.toks;
    var w := t[pos].w;
    if w == "true" || w == "false" || w == "null" {
      PrintLeaves(w == "true", w, []);
      One(Word(w), t, pos);
    } else if w == "orb" || w == "if" || w == "while" || w == "loop" {
      KeywordFormSound(p, pos, lk);
    } else if w == "return" || w == "break" || w == "continue" {
      JumpSound(p, pos, lk);
    } else if pos + 1 < |t| && t[pos + 1].Str? {
      var ps := t[pos + 1].pieces;
      PrintLeaves(false, w, ps);
      Two(Word(w), Str(ps), t, pos);
    } else if lk && p.SymAt(pos + 1, Colon) && p.LabelBodyAt(pos + 2) {
      LabeledSound(p, pos);
    } else {
      var segs := PathTailSound(p, pos + 1, Name(w), []);
      PrintPath(Name(w), segs);
      Lead1(Word(w), PrintSegs(segs), t, pos, p.ParsePathTail(pos + 1, Name(w), []).next);
    }
  }

  /** `orb` paths, `if`, `while` and `loop` */
  lemma {:induction false} KeywordFormSound(p: Parser, pos: nat, lk: bool)
    requires pos < |p.toks| && p.toks[pos].Word? && p.ParseWordPrefix(pos, lk).Ok?
    requires p.toks[pos].w in {"orb", "if", "while", "loop"}
    ensures var r := p.ParseWordPrefix(pos, lk); RespellsAt(Print(r.value), p.toks, pos, r.next)
    decreases |p.toks| - pos, 2
  {
    hide Print, Respells, PrintBlock, PrintBody, PrintArgs, PrintStmt, Parser.ParseExpr, Parser.ParseInfix, Parser.ParseArgs, Parser.ParsePrefix, Parser.ParseSymPrefix, Parser.ParseWordPrefix, Parser.ParsePathTail, Parser.ParseBreak, Parser.ParseIf, Parser.ParseWhile, Parser.ParseFor, Parser.ParseLabeled, Parser.ParseBlock, Parser.ParseStmts, Parser.ParseType, Parser.ParseItemValue, Parser.ParseItem, Parser.ParseItems, WfExpr, WfBlock, WithBlock, RespellsAt;
    WordStep(p, pos, lk);
    var t := p.toks;
    var w := t[pos].w;
    if w == "orb" {
      var segs := PathTailSound(p, pos + 1, Orb, []);
      PrintPath(Orb, segs);
      Lead1(Word("orb"), PrintSegs(segs), t, pos, p.ParsePathTail(pos + 1, Orb, []).next);
    } else if w == "if" {
      IfSound(p, pos);
    } else if w == "while" {
      WhileSound(p, pos);
    } else {
      var b := p.ParseBlock(pos + 1);
      BlockSound(p, pos + 1);
      PrintBlockForms(Null, b.value);
      Lead1(Word("loop"), PrintBlock(b.value), t, pos, b.next);
    }
  }

  /** `return_expr`, `break_expr` and `continue_expr` */
  lemma {:induction false} JumpSound(p: Parser, pos: nat, lk: bool)
    requires pos < |p.toks| && p.toks[pos].Word? && p.ParseWordPrefix(pos, lk).Ok?
    requires p.toks[pos].w in {"return", "break", "continue"}
    ensures var r := p.ParseWordPrefix(pos, lk); RespellsAt(Print(r.value), p.toks, pos, r.next)
    decreases |p.toks| - pos, 2
  {
    hide Print, Respells, PrintBlock, PrintBody, PrintArgs, PrintStmt, Parser.ParseExpr, Parser.ParseInfix, Parser.ParseArgs, Parser.ParsePrefix, Parser.ParseSymPrefix, Parser.ParseWordPrefix, Parser.ParsePathTail, Parser.ParseBreak, Parser.ParseIf, Parser.ParseWhile, Parser.ParseFor, Parser.ParseLabeled, Parser.ParseBlock, Parser.ParseStmts, Parser.ParseType, Parser.ParseItemValue, Parser.ParseItem, Parser.ParseItems, WfExpr, WfBlock, WithBlock, RespellsAt;
    WordStep(p, pos, lk);
    var t := p.toks;
    var w := t[pos].w;
    if w == "return" {
      if p.StartsExpr(pos + 1) {
        var x := p.ParseExpr(pos + 1, Ctx(PrecAssign, false), lk);
        ExprSound(p, pos + 1, Ctx(PrecAssign, false), lk);
        PrintReturn(x.value);
        Lead1(Word("return"), Print(x.value), t, pos, x.next);
      } else {
        PrintReturn(Null);
        One(Word("return"), t, pos);
      }
    } else if w == "break" {
      BreakSound(p, pos, lk);
    } else if !p.SymAt(pos + 1, Colon) {
      PrintContinue("");
      One(Word("continue"), t, pos);
    } else {
      var l := t[pos + 2].w;
      PrintContinue(l);
      Three(Word("continue"), Sym(Colon), Word(l), t, pos);
    }
  }

  /** Path segments are read exactly as printed */
  lemma {:induction false} PathTailSound(p: Parser, pos: nat, root: PathRoot, segs: seq<string>) returns (more: seq<string>)
    requires 0 < pos <= |p.toks| && p.ParsePathTail(pos, root, segs).Ok?
    ensures var r := p.ParsePathTail(pos, root, segs);
            && r.value == PathE(root, segs + more) && RespellsAt(PrintSegs(more), p.toks, pos, r.next)
    decreases |p.toks| - pos
  {
    var t := p.toks;
    if !p.SymAt(pos, ColonColon) {
      more := [];
      assert segs + more == segs;
      Nothing(t, pos);
    } else {
      var s := t[pos + 1].w;
      var rest := PathTailSound(p, pos + 2, root, segs + [s]);
      var r := p.ParsePathTail(pos + 2, root, segs + [s]);
      more := [s] + rest;
      assert segs + [s] + rest == segs + more;
      assert more[1..] == rest;
      Two(Sym(ColonColon), Word(s), t, pos);
      Glue([Sym(ColonColon), Word(s)], PrintSegs(rest), t, pos, pos + 2, r.next);
    }
  }

  /** `break_expr` */
  lemma {:induction false} BreakSound(p: Parser, pos: nat, lk: bool)
    requires pos < |p.toks| && p.toks[pos] == Word("break") && p.ParseWordPrefix(pos, lk).Ok?
    ensures var r := p.ParseWordPrefix(pos, lk); RespellsAt(Print(r.value), p.toks, pos, r.next)
    decreases |p.toks| - pos, 1
  {
    hide Print, Respells, PrintBlock, PrintBody, PrintArgs, PrintStmt, Parser.ParseExpr, Parser.ParseInfix, Parser.ParseArgs, Parser.ParsePrefix, Parser.ParseSymPrefix, Parser.ParseWordPrefix, Parser.ParsePathTail, Parser.ParseBreak, Parser.ParseIf, Parser.ParseWhile, Parser.ParseFor, Parser.ParseLabeled, Parser.ParseBlock, Parser.ParseStmts, Parser.ParseType, Parser.ParseItemValue, Parser.ParseItem, Parser.ParseItems, WfExpr, WfBlock, WithBlock, RespellsAt;
    WordStep(p, pos, lk);
    BreakStep(p, pos, lk);
    var t := p.toks;
    if p.SymAt(pos + 1, Colon) {
      var l := t[pos + 2].w;
      Three(Word("break"), Sym(Colon), Word(l), t, pos);
      if p.StartsExpr(pos + 3) {
        var x := p.ParseExpr(pos + 3, Ctx(PrecAssign, false), lk);
        ExprSound(p, pos + 3, Ctx(PrecAssign, false), lk);
        PrintBreak(l, x.value);
        Glue([Word("break"), Sym(Colon), Word(l)], Print(x.value), t, pos, pos + 3, x.next);
      } else {
        PrintBreak(l, Null);
      }
    } else if p.StartsExpr(pos + 1) {
      var x := p.ParseExpr(pos + 1, Ctx(PrecAssign, false), lk);
      ExprSound(p, pos + 1, Ctx(PrecAssign, false), lk);
      PrintBreak("", x.value);
      Lead1(Word("break"), Print(x.value), t, pos, x.next);
    } else {
      PrintBreak("", Null);
      One(Word("break"), t, pos);
    }
  }

  /** `if_expr`, its `else` branch another `if` or a block */
  lemma {:induction false} IfSound(p: Parser, pos: nat)
    requires pos < |p.toks| && p.toks[pos] == Word("if") && p.ParseIf(pos).Ok?
    ensures var r := p.ParseIf(pos); RespellsAt(Print(r.value), p.toks, pos, r.next)
    decreases |p.toks| - pos, 1
  {
    hide Print, Respells, PrintBlock, PrintBody, PrintArgs, PrintStmt, Parser.ParseExpr, Parser.ParseInfix, Parser.ParseArgs, Parser.ParsePrefix, Parser.ParseSymPrefix, Parser.ParseWordPrefix, Parser.ParsePathTail, Parser.ParseBreak, Parser.ParseIf, Parser.ParseWhile, Parser.ParseFor, Parser.ParseLabeled, Parser.ParseBlock, Parser.ParseStmts, Parser.ParseType, Parser.ParseItemValue, Parser.ParseItem, Parser.ParseItems, WfExpr, WfBlock, WithBlock, RespellsAt;
    IfStep(p, pos);
    var cond := p.ParseExpr(pos + 1, Top, true);
    var thn := p.ParseBlock(cond.next);
    IfHeadSound(p, pos);
    PrintIf(cond.value, thn.value, Null);
    if p.KeywordAt(thn.next, "else") {
      var els, next := ElseSound(p, thn.next);
      PrintIf(cond.value, thn.value, els);
      Glue([Word("if")] + Print(cond.value) + PrintBlock(thn.value), [Word("else")] + Print(els), p.toks, pos, thn.next, next);
    }
  }

  /** `if`, the condition and the first block */
  lemma {:induction false} IfHeadSound(p: Parser, pos: nat)
    requires pos < |p.toks| && p.toks[pos] == Word("if") && p.ParseIf(pos).Ok?
    ensures var cond := p.ParseExpr(pos + 1, Top, true);
            && cond.Ok?
            && var thn := p.ParseBlock(cond.next);
               thn.Ok? && RespellsAt([Word("if")] + Print(cond.value) + PrintBlock(thn.value), p.toks, pos, thn.next)
    decreases |p.toks| - pos, 0
  {
    hide Print, Respells, PrintBlock, PrintBody, PrintArgs, PrintStmt, Parser.ParseExpr, Parser.ParseInfix, Parser.ParseArgs, Parser.ParsePrefix, Parser.ParseSymPrefix, Parser.ParseWordPrefix, Parser.ParsePathTail, Parser.ParseBreak, Parser.ParseIf, Parser.ParseWhile, Parser.ParseFor, Parser.ParseLabeled, Parser.ParseBlock, Parser.ParseStmts, Parser.ParseType, Parser.ParseItemValue, Parser.ParseItem, Parser.ParseItems, WfExpr, WfBlock, WithBlock, RespellsAt;
    IfStep(p, pos);
    var t := p.toks;
    var cond := p.ParseExpr(pos + 1, Top, true);
    ExprSound(p, pos + 1, Top, true);
    var thn := p.ParseBlock(cond.next);
    BlockSound(p, cond.next);
    Lead1(Word("if"), Print(cond.value), t, pos, cond.next);
    Glue([Word("if")] + Print(cond.value), PrintBlock(thn.value), t, pos, cond.next, thn.next);
  }

  /** The `else` branch of an `if_expr`: another `if`, or a block */
  lemma {:induction false} ElseSound(p: Parser, i: nat) returns (els: Expr, next: nat)
    requires i + 1 < |p.toks| && p.toks[i] == Word("else")
    requires if p.KeywordAt(i + 1, "if") then p.ParseIf(i + 1).Ok? else p.ParseBlock(i + 1).Ok?
    ensures p.KeywordAt(i + 1, "if") ==> els == p.ParseIf(i + 1).value && next == p.ParseIf(i + 1).next
    ensures !p.KeywordAt(i + 1, "if") ==> els == BlockE(p.ParseBlock(i + 1).value) && next == p.ParseBlock(i + 1).next
    ensures i < next <= |p.toks| && RespellsAt([Word("else")] + Print(els), p.toks, i, next)
    decreases |p.toks| - i, 2
  {
    hide Print, Respells, PrintBlock, PrintBody, PrintArgs, PrintStmt, Parser.ParseExpr, Parser.ParseInfix, Parser.ParseArgs, Parser.ParsePrefix, Parser.ParseSymPrefix, Parser.ParseWordPrefix, Parser.ParsePathTail, Parser.ParseBreak, Parser.ParseIf, Parser.ParseWhile, Parser.ParseFor, Parser.ParseLabeled, Parser.ParseBlock, Parser.ParseStmts, Parser.ParseType, Parser.ParseItemValue, Parser.ParseItem, Parser.ParseItems, WfExpr, WfBlock, WithBlock, RespellsAt;
    if p.KeywordAt(i + 1, "if") {
      var r := p.ParseIf(i + 1);
      IfSound(p, i + 1);
      els, next := r.value, r.next;
    } else {
      var b := p.ParseBlock(i + 1);
      BlockSound(p, i + 1);
      PrintBlockForms(Null, b.value);
      els, next := BlockE(b.value), b.next;
    }
    Lead1(Word("else"), Print(els), p.toks, i, next);
  }

  /** `while_expr` */
  lemma {:induction false} WhileSound(p: Parser, pos: nat)
    requires pos < |p.toks| && p.toks[pos] == Word("while") && p.ParseWhile(pos).Ok?
    ensures var r := p.ParseWhile(pos); RespellsAt(Print(r.value), p.toks, pos, r.next)
    decreases |p.toks| - pos, 1
  {
    hide Print, Respells, PrintBlock, PrintBody, PrintArgs, PrintStmt, Parser.ParseExpr, Parser.ParseInfix, Parser.ParseArgs, Parser.ParsePrefix, Parser.ParseSymPrefix, Parser.ParseWordPrefix, Parser.ParsePathTail, Parser.ParseBreak, Parser.ParseIf, Parser.ParseWhile, Parser.ParseFor, Parser.ParseLabeled, Parser.ParseBlock, Parser.ParseStmts, Parser.ParseType, Parser.ParseItemValue, Parser.ParseItem, Parser.ParseItems, WfExpr, WfBlock, WithBlock, RespellsAt;
    WhileStep(p, pos);
    var t := p.toks;
    var cond := p.ParseExpr(pos + 1, Top, true);
    ExprSound(p, pos + 1, Top, true);
    var body := p.ParseBlock(cond.next);
    BlockSound(p, cond.next);
    PrintBlockForms(cond.value, body.value);
    Lead1(Word("while"), Print(cond.value), t, pos, cond.next);
    Glue([Word("while")] + Print(cond.value), PrintBlock(body.value), t, pos, cond.next, body.next);
  }

  /** `for_expr` */
  lemma {:induction false} ForSound(p: Parser, pos: nat)
    requires pos < |p.toks| && p.toks[pos] == Word("for") && p.ParseFor(pos).Ok?
    ensures var r := p.ParseFor(pos); RespellsAt(Print(r.value), p.toks, pos, r.next)
    decreases |p.toks| - pos, 1
  {
    hide Print, Respells, PrintBlock, PrintBody, PrintArgs, PrintStmt, Parser.ParseExpr, Parser.ParseInfix, Parser.ParseArgs, Parser.ParsePrefix, Parser.ParseSymPrefix, Parser.ParseWordPrefix, Parser.ParsePathTail, Parser.ParseBreak, Parser.ParseIf, Parser.ParseWhile, Parser.ParseFor, Parser.ParseLabeled, Parser.ParseBlock, Parser.ParseStmts, Parser.ParseType, Parser.ParseItemValue, Parser.ParseItem, Parser.ParseItems, WfExpr, WfBlock, WithBlock, RespellsAt;
    ForStep(p, pos);
    var t := p.toks;
    var v := t[pos + 1].w;
    Three(Word("for"), Word(v), Word("in"), t, pos);
    var iter := p.ParseExpr(pos + 3, Top, true);
    ExprSound(p, pos + 3, Top, true);
    var body := p.ParseBlock(iter.next);
    BlockSound(p, iter.next);
    PrintLabelForms(v, iter.value, body.value);
    Glue([Word("for"), Word(v), Word("in")], Print(iter.value), t, pos, pos + 3, iter.next);
    Glue([Word("for"), Word(v), Word("in")] + Print(iter.value), PrintBlock(body.value), t, pos, iter.next, body.next);
  }

  /** `labeled_expr` */
  lemma {:induction false} LabeledSound(p: Parser, pos: nat)
    requires pos < |p.toks| && p.toks[pos].Word? && p.ParseLabeled(pos).Ok?
    ensures var r := p.ParseLabeled(pos); RespellsAt(Print(r.value), p.toks, pos, r.next)
    decreases |p.toks| - pos, 1
  {
    hide Print, Respells, PrintBlock, PrintBody, PrintArgs, PrintStmt, Parser.ParseExpr, Parser.ParseInfix, Parser.ParseArgs, Parser.ParsePrefix, Parser.ParseSymPrefix, Parser.ParseWordPrefix, Parser.ParsePathTail, Parser.ParseBreak, Parser.ParseIf, Parser.ParseWhile, Parser.ParseFor, Parser.ParseLabeled, Parser.ParseBlock, Parser.ParseStmts, Parser.ParseType, Parser.ParseItemValue, Parser.ParseItem, Parser.ParseItems, WfExpr, WfBlock, WithBlock, RespellsAt;
    LabeledStep(p, pos);
    var t := p.toks;
    var name := t[pos].w;
    var head := [Word(name), Sym(Colon)];
    Two(Word(name), Sym(Colon), t, pos);
    var inner, next;
    if p.SymAt(pos + 2, LBrace) {
      var b := p.ParseBlock(pos + 2);
      BlockSound(p, pos + 2);
      PrintBlockForms(Null, b.value);
      inner, next := BlockE(b.value), b.next;
    } else if p.KeywordAt(pos + 2, "while") {
      var w := p.ParseWhile(pos + 2);
      WhileSound(p, pos + 2);
      inner, next := w.value, w.next;
    } else if p.KeywordAt(pos + 2, "for") {
      var f := p.ParseFor(pos + 2);
      ForSound(p, pos + 2);
      inner, next := f.value, f.next;
    } else {
      var b := p.ParseBlock(pos + 3);
      BlockSound(p, pos + 3);
      PrintBlockForms(Null, b.value);
      Lead1(Word("loop"), PrintBlock(b.value), t, pos + 2, b.next);
      inner, next := Loop(b.value), b.next;
    }
    PrintLabelForms(name, inner, Block([], None));
    Glue(head, Print(inner), t, pos, pos + 2, next);
  }

  // ---------------------------------------------------------------------
  // Blocks

  /** `block`: what is read from `{` to `}` is the printed block */
  lemma {:induction false} BlockSound(p: Parser, pos: nat)
    requires pos <= |p.toks| && p.ParseBlock(pos).Ok?
    ensures var r := p.ParseBlock(pos); RespellsAt(PrintBlock(r.value), p.toks, pos, r.next)
    decreases |p.toks| - pos, 1
  {
    hide Print, Respells, PrintBlock, PrintBody, PrintArgs, PrintStmt, Parser.ParseExpr, Parser.ParseInfix, Parser.ParseArgs, Parser.ParsePrefix, Parser.ParseSymPrefix, Parser.ParseWordPrefix, Parser.ParsePathTail, Parser.ParseBreak, Parser.ParseIf, Parser.ParseWhile, Parser.ParseFor, Parser.ParseLabeled, Parser.ParseBlock, Parser.ParseStmts, Parser.ParseType, Parser.ParseItemValue, Parser.ParseItem, Parser.ParseItems, WfExpr, WfBlock, WithBlock, RespellsAt;
    BlockStep(p, pos);
    var r := p.ParseStmts(pos + 1, []);
    StmtsSound(p, pos + 1, []);
    PrintBlockIs(r.value);
    Lead1(Sym(LBrace), PrintBody(r.value, 0), p.toks, pos, r.next);
  }

  /** The statements after those in `acc`, the last expression and `}` */
  lemma {:induction false} StmtsSound(p: Parser, pos: nat, acc: seq<Expr>)
    requires pos <= |p.toks| && (forall s | s in acc :: WfExpr(s)) && p.ParseStmts(pos, acc).Ok?
    ensures var r := p.ParseStmts(pos, acc); RespellsAt(PrintBody(r.value, |acc|), p.toks, pos, r.next)
    decreases |p.toks| - pos, 6
  {
    hide Print, Respells, PrintBlock, PrintBody, PrintArgs, PrintStmt, Parser.ParseExpr, Parser.ParseInfix, Parser.ParseArgs, Parser.ParsePrefix, Parser.ParseSymPrefix, Parser.ParseWordPrefix, Parser.ParsePathTail, Parser.ParseBreak, Parser.ParseIf, Parser.ParseWhile, Parser.ParseFor, Parser.ParseLabeled, Parser.ParseBlock, Parser.ParseStmts, Parser.ParseType, Parser.ParseItemValue, Parser.ParseItem, Parser.ParseItems, WfExpr, WfBlock, WithBlock, RespellsAt;
    StmtsStep(p, pos, acc);
    var t := p.toks;
    var res := p.ParseStmts(pos, acc);
    if p.SymAt(pos, RBrace) {
      PrintBodyIs(res.value, |acc|);
      One(Sym(RBrace), t, pos);
    } else {
      var e := p.ParseExpr(pos, Top, true);
      ExprSound(p, pos, Top, true);
      if p.SymAt(e.next, RBrace) {
        PrintBodyIs(res.value, |acc|);
        Trail1(Print(e.value), Sym(RBrace), t, pos, e.next);
      } else {
        StmtsMoreSound(p, pos, acc);
      }
    }
  }

  /** A statement, with its `;` unless it ends in a block, then the rest */
  lemma {:induction false} StmtsMoreSound(p: Parser, pos: nat, acc: seq<Expr>)
    requires pos <= |p.toks| && (forall s | s in acc :: WfExpr(s)) && p.ParseStmts(pos, acc).Ok?
    requires !p.SymAt(pos, RBrace)
    requires var e := p.ParseExpr(pos, Top, true);
             e.Ok? && !p.SymAt(e.next, RBrace) && RespellsAt(Print(e.value), p.toks, pos, e.next)
    ensures var r := p.ParseStmts(pos, acc); RespellsAt(PrintBody(r.value, |acc|), p.toks, pos, r.next)
    decreases |p.toks| - pos, 5
  {
    hide Print, Respells, PrintBlock, PrintBody, PrintArgs, PrintStmt, Parser.ParseExpr, Parser.ParseInfix, Parser.ParseArgs, Parser.ParsePrefix, Parser.ParseSymPrefix, Parser.ParseWordPrefix, Parser.ParsePathTail, Parser.ParseBreak, Parser.ParseIf, Parser.ParseWhile, Parser.ParseFor, Parser.ParseLabeled, Parser.ParseBlock, Parser.ParseStmts, Parser.ParseType, Parser.ParseItemValue, Parser.ParseItem, Parser.ParseItems, WfExpr, WfBlock, WithBlock, RespellsAt;
    StmtsStep(p, pos, acc);
    StmtsNext(p, pos, acc);
    var t := p.toks;
    var res := p.ParseStmts(pos, acc);
    var e := p.ParseExpr(pos, Top, true);
    var s := if WithBlock(e.value) then e.next else e.next + 1;
    StmtsSound(p, s, acc + [e.value]);
    PrintBodyIs(res.value, |acc|);
    PrintStmtIs(e.value);
    if WithBlock(e.value) {
      Glue(Print(e.value), PrintBody(res.value, |acc| + 1), t, pos, e.next, res.next);
    } else {
      Trail1(Print(e.value), Sym(Semi), t, pos, e.next);
      Glue(Print(e.value) + [Sym(Semi)], PrintBody(res.value, |acc| + 1), t, pos, e.next + 1, res.next);
    }
  }

  /** A statement read goes after those in `acc` */
  lemma StmtsNext(p: Parser, pos: nat, acc: seq<Expr>)
    requires pos <= |p.toks| && (forall s | s in acc :: WfExpr(s)) && p.ParseStmts(pos, acc).Ok?
    requires !p.SymAt(pos, RBrace)
    ensures var e := p.ParseExpr(pos, Top, true);
            e.Ok? && !p.SymAt(e.next, RBrace) ==>
              && |acc + [e.value]| == |acc| + 1
              && (forall s | s in acc + [e.value] :: WfExpr(s))
              && |acc| < |p.ParseStmts(pos, acc).value.stmts|
              && p.ParseStmts(pos, acc).value.stmts[|acc|] == e.value
  {
  }

  // ---------------------------------------------------------------------
  // Definitions and the source file

  /** A definition's value as read: its print, then the `;` that may
      follow a with-block value, which the printer leaves out */
  function ValueAsRead(v: Expr, extra: bool): seq<Token> {
    PrintStmt(v) + (if extra then [Sym(Semi)] else [])
  }

  /** A definition as read */
  function ItemAsRead(it: Item, extra: bool): seq<Token> {
    PrintItem(it) + (if extra then [Sym(Semi)] else [])
  }

  /** Definitions as read, each with its flag for a kept `;` */
  function ItemsAsRead(its: seq<Item>, extras: seq<bool>): seq<Token>
    requires |its| == |extras|
  {
    if its == [] then [] else ItemAsRead(its[0], extras[0]) + ItemsAsRead(its[1..], extras[1..])
  }

  /** A kept `;` follows only a with-block value */
  predicate ExtrasOk(its: seq<Item>, extras: seq<bool>) {
    && |its| == |extras|
    && forall i | 0 <= i < |its| :: extras[i] ==> WithBlock(its[i].value)
  }

  /** `_type`: a primitive type's name, or an expression */
  lemma TypeSound(p: Parser, pos: nat)
    requires pos <= |p.toks| && p.ParseType(pos).Ok?
    ensures var r := p.ParseType(pos); RespellsAt(PrintType(r.value), p.toks, pos, r.next)
  {
    hide Print, Respells, PrintBlock, PrintBody, PrintArgs, PrintStmt, Parser.ParseExpr, Parser.ParseInfix, Parser.ParseArgs, Parser.ParsePrefix, Parser.ParseSymPrefix, Parser.ParseWordPrefix, Parser.ParsePathTail, Parser.ParseBreak, Parser.ParseIf, Parser.ParseWhile, Parser.ParseFor, Parser.ParseLabeled, Parser.ParseBlock, Parser.ParseStmts, Parser.ParseType, Parser.ParseItemValue, Parser.ParseItem, Parser.ParseItems, WfExpr, WfBlock, WithBlock, RespellsAt;
    TypeStep(p, pos);
    var r := p.ParseType(pos);
    if r.value.Prim? {
      One(Word(r.value.name), p.toks, pos);
    } else {
      ExprSound(p, pos, Ctx(PrecAssign, false), false);
    }
  }

  /** A definition's value with its terminator: `;` after a
      without-block value, and a with-block value's optional `;` */
  lemma ItemValueSound(p: Parser, pos: nat) returns (extra: bool)
    requires pos <= |p.toks| && p.ParseItemValue(pos).Ok?
    ensures var r := p.ParseItemValue(pos);
            && RespellsAt(ValueAsRead(r.value, extra), p.toks, pos, r.next)
            && (extra ==> WithBlock(r.value))
  {
    hide Print, Respells, PrintBlock, PrintBody, PrintArgs, PrintStmt, Parser.ParseExpr, Parser.ParseInfix, Parser.ParseArgs, Parser.ParsePrefix, Parser.ParseSymPrefix, Parser.ParseWordPrefix, Parser.ParsePathTail, Parser.ParseBreak, Parser.ParseIf, Parser.ParseWhile, Parser.ParseFor, Parser.ParseLabeled, Parser.ParseBlock, Parser.ParseStmts, Parser.ParseType, Parser.ParseItemValue, Parser.ParseItem, Parser.ParseItems, WfExpr, WfBlock, WithBlock, RespellsAt;
    ItemValueStep(p, pos);
    var v := p.ParseExpr(pos, Top, true);
    ExprSound(p, pos, Top, true);
    ValueAsReadIs(v.value);
    extra := p.SymAt(v.next, Semi) && WithBlock(v.value);
    if p.SymAt(v.next, Semi) {
      Trail1(Print(v.value), Sym(Semi), p.toks, pos, v.next);
    }
  }

  /** `global_def_item`: the name, `:`, the type if any, `:` or `=`,
      the value */
  lemma ItemSound(p: Parser, pos: nat) returns (extra: bool)
    requires pos <= |p.toks| && p.ParseItem(pos).Ok?
    ensures var r := p.ParseItem(pos);
            && RespellsAt(ItemAsRead(r.value, extra), p.toks, pos, r.next)
            && (extra ==> WithBlock(r.value.value))
  {
    hide Print, Respells, PrintBlock, PrintBody, PrintArgs, PrintStmt, Parser.ParseExpr, Parser.ParseInfix, Parser.ParseArgs, Parser.ParsePrefix, Parser.ParseSymPrefix, Parser.ParseWordPrefix, Parser.ParsePathTail, Parser.ParseBreak, Parser.ParseIf, Parser.ParseWhile, Parser.ParseFor, Parser.ParseLabeled, Parser.ParseBlock, Parser.ParseStmts, Parser.ParseType, Parser.ParseItemValue, Parser.ParseItem, Parser.ParseItems, WfExpr, WfBlock, WithBlock, RespellsAt;
    ItemStep(p, pos);
    var t := p.toks;
    var r := p.ParseItem(pos);
    var name := t[pos].w;
    if p.SymAt(pos + 1, ColonColon) {
      extra := ItemValueSound(p, pos + 2);
      var v := p.ParseItemValue(pos + 2);
      ItemAsReadIs(r.value, extra);
      ColonColonAt(ValueAsRead(v.value, extra), t, pos + 1, v.next);
      Lead1(Word(name), [Sym(Colon), Sym(Colon)] + ValueAsRead(v.value, extra), t, pos, v.next);
    } else if p.SymAt(pos + 2, Colon) || p.SymAt(pos + 2, Eq) {
      extra := ItemValueSound(p, pos + 3);
      var v := p.ParseItemValue(pos + 3);
      ItemAsReadIs(r.value, extra);
      Three(Word(name), Sym(Colon), Sym(if r.value.isConst then Colon else Eq), t, pos);
      Glue([Word(name), Sym(Colon), Sym(if r.value.isConst then Colon else Eq)], ValueAsRead(v.value, extra), t, pos, pos + 3, v.next);
    } else {
      var ty := p.ParseType(pos + 2);
      TypeSound(p, pos + 2);
      extra := ItemValueSound(p, ty.next + 1);
      var v := p.ParseItemValue(ty.next + 1);
      ItemAsReadIs(r.value, extra);
      var tail := [Sym(if r.value.isConst then Colon else Eq)] + ValueAsRead(v.value, extra);
      Lead1(Sym(if r.value.isConst then Colon else Eq), ValueAsRead(v.value, extra), t, ty.next, v.next);
      Glue(PrintType(ty.value), tail, t, pos + 2, ty.next, v.next);
      Two(Word(name), Sym(Colon), t, pos);
      Glue([Word(name), Sym(Colon)], PrintType(ty.value) + tail, t, pos, pos + 2, v.next);
    }
  }

  /** `source_file`: the definitions after those in `acc`, up to the end
      of the tokens */
  lemma {:induction false} ItemsSound(p: Parser, pos: nat, acc: seq<Item>) returns (more: seq<Item>, extras: seq<bool>)
    requires pos <= |p.toks| && (forall it | it in acc :: WfItem(it)) && p.ParseItems(pos, acc).Ok?
    ensures var r := p.ParseItems(pos, acc);
            && r.value == acc + more
            && ExtrasOk(more, extras)
            && RespellsAt(ItemsAsRead(more, extras), p.toks, pos, |p.toks|)
    decreases |p.toks| - pos
  {
    hide Print, Respells, PrintBlock, PrintBody, PrintArgs, PrintStmt, Parser.ParseExpr, Parser.ParseInfix, Parser.ParseArgs, Parser.ParsePrefix, Parser.ParseSymPrefix, Parser.ParseWordPrefix, Parser.ParsePathTail, Parser.ParseBreak, Parser.ParseIf, Parser.ParseWhile, Parser.ParseFor, Parser.ParseLabeled, Parser.ParseBlock, Parser.ParseStmts, Parser.ParseType, Parser.ParseItemValue, Parser.ParseItem, Parser.ParseItems, WfExpr, WfBlock, WithBlock, RespellsAt;
    ItemsStep(p, pos, acc);
    if pos == |p.toks| {
      more, extras := [], [];
      Nothing(p.toks, pos);
    } else {
      var it := p.ParseItem(pos);
      var x := ItemSound(p, pos);
      var m, xs := ItemsSound(p, it.next, acc + [it.value]);
      more, extras := [it.value] + m, [x] + xs;
      ItemsAsReadCons(m, xs, it.value, x);
      Glue(ItemAsRead(it.value, x), ItemsAsRead(m, xs), p.toks, pos, it.next, |p.toks|);
    }
  }

  /** Whatever the pipeline accepts is the lexed text's tokens, respelt as
      the print of the definitions it returns, each `;` the printer leaves
      out after a with-block value flagged in `extras` */
  lemma SourceSound(text: string) returns (ls: seq<Lexeme>, extras: seq<bool>)
    requires ParseSource(text).Ok?
    ensures LunLexer.Lex(text) == LunLexer.Lexed(ls) && Texts(ls) == text
    ensures var its := ParseSource(text).value;
            ExtrasOk(its, extras) && Respells(ItemsAsRead(its, extras), TokensOf(ls))
  {
    ls := LunLexer.Lex(text).lexemes;
    var p := Parser(TokensOf(ls), PrecField);
    var more;
    more, extras := ItemsSound(p, 0, []);
    assert [] + more == more;
    assert p.toks[0..|p.toks|] == p.toks;
  }

  /** With no `;` kept, the definitions as read are their print */
  lemma {:induction false} NoExtras(its: seq<Item>, extras: seq<bool>)
    requires |its| == |extras| && forall i | 0 <= i < |extras| :: !extras[i]
    ensures ItemsAsRead(its, extras) == PrintItems(its)
  {
    hide PrintItem, Print, PrintStmt, PrintType;
    if its != [] {
      NoExtras(its[1..], extras[1..]);
      assert ItemAsRead(its[0], extras[0]) == PrintItem(its[0]) + [];
    }
  }

  // ---------------------------------------------------------------------
  // One unfolding of each parse function

  lemma ExprStep(p: Parser, pos: nat, c: Ctx, lk: bool)
    requires pos <= |p.toks| && p.ParseExpr(pos, c, lk).Ok?
    ensures var h := p.ParsePrefix(pos, lk);
            h.Ok? && p.ParseExpr(pos, c, lk) == p.ParseInfix(h.value, h.next, c, lk)
  {
  }

  lemma ArgsStep(p: Parser, pos: nat, acc: seq<Expr>)
    requires pos <= |p.toks| && (forall a | a in acc :: WfExpr(a)) && p.ParseArgs(pos, acc).Ok?
    ensures var r := p.ParseArgs(pos, acc);
            && (p.SymAt(pos, RParen) ==> r == Ok(acc, pos + 1))
            && (!p.SymAt(pos, RParen) ==>
                 var e := p.ParseExpr(pos, Top, true);
                 && e.Ok?
                 && (p.SymAt(e.next, Comma) ==> r == p.ParseArgs(e.next + 1, acc + [e.value]))
                 && (!p.SymAt(e.next, Comma) ==> p.SymAt(e.next, RParen) && r == Ok(acc + [e.value], e.next + 1)))
  {
  }

  lemma PrefixStep(p: Parser, pos: nat, lk: bool)
    requires pos <= |p.toks| && p.ParsePrefix(pos, lk).Ok?
    ensures pos < |p.toks|
    ensures var r := p.ParsePrefix(pos, lk);
            match p.toks[pos]
            case Int(l) => r == Ok(IntLitE(l), pos + 1)
            case Str(ps) => r == Ok(StrLitE(None, ps), pos + 1)
            case Sym(_) => r == p.ParseSymPrefix(pos, lk)
            case Word(_) => r == p.ParseWordPrefix(pos, lk)
  {
  }

  lemma SymStep(p: Parser, pos: nat, lk: bool)
    requires pos < |p.toks| && p.toks[pos].Sym? && p.ParseSymPrefix(pos, lk).Ok?
    ensures var r := p.ParseSymPrefix(pos, lk);
            var q := p.toks[pos].p;
            && q in {Minus, Bang, Amp, AmpAmp, LParen, LBrace}
            && (q == Minus || q == Bang ==>
                 var x := p.ParseExpr(pos + 1, Ctx(PrecUnary, false), lk);
                 x.Ok? && r == Ok(Unary(if q == Minus then Neg else Not, x.value), x.next))
            && (q == Amp || q == AmpAmp ==>
                 var m := p.KeywordAt(pos + 1, "mut");
                 var x := p.ParseExpr(if m then pos + 2 else pos + 1, Ctx(PrecUnary, false), lk);
                 x.Ok? && r == Ok(if q == Amp then Borrow(m, x.value) else Borrow(false, Borrow(m, x.value)), x.next))
            && (q == LParen ==>
                 var x := p.ParseExpr(pos + 1, Top, true);
                 x.Ok? && p.SymAt(x.next, RParen) && r == Ok(Paren(x.value), x.next + 1))
            && (q == LBrace ==>
                 var b := p.ParseBlock(pos);
                 b.Ok? && r == Ok(BlockE(b.value), b.next))
  {
  }

  lemma WordStep(p: Parser, pos: nat, lk: bool)
    requires pos < |p.toks| && p.toks[pos].Word? && p.ParseWordPrefix(pos, lk).Ok?
    ensures var r := p.ParseWordPrefix(pos, lk);
            var w := p.toks[pos].w;
            && (w == "true" || w == "false" ==> r == Ok(BoolLit(w == "true"), pos + 1))
            && (w == "null" ==> r == Ok(Null, pos + 1))
            && (w == "orb" ==> r == p.ParsePathTail(pos + 1, Orb, []))
            && (w == "if" ==> r == p.ParseIf(pos))
            && (w == "while" ==> r == p.ParseWhile(pos))
            && (w == "loop" ==> var b := p.ParseBlock(pos + 1); b.Ok? && r == Ok(Loop(b.value), b.next))
            && (w == "return" && p.StartsExpr(pos + 1) ==>
                 var x := p.ParseExpr(pos + 1, Ctx(PrecAssign, false), lk);
                 x.Ok? && r == Ok(Return(Some(x.value)), x.next))
            && (w == "return" && !p.StartsExpr(pos + 1) ==> r == Ok(Return(None), pos + 1))
            && (w == "break" ==> r == p.ParseBreak(pos, lk))
            && (w == "continue" && !p.SymAt(pos + 1, Colon) ==> r == Ok(Continue(None), pos + 1))
            && (w == "continue" && p.SymAt(pos + 1, Colon) ==>
                 p.AnyWordAt(pos + 2) && r == Ok(Continue(Some(p.toks[pos + 2].w)), pos + 3))
            && (w !in PrimaryKeywords && pos + 1 < |p.toks| && p.toks[pos + 1].Str? ==>
                 r == Ok(StrLitE(Some(w), p.toks[pos + 1].pieces), pos + 2))
            && (w !in PrimaryKeywords && !(pos + 1 < |p.toks| && p.toks[pos + 1].Str?) ==>
                 if lk && p.SymAt(pos + 1, Colon) && p.LabelBodyAt(pos + 2) then r == p.ParseLabeled(pos)
                 else r == p.ParsePathTail(pos + 1, Name(w), []))
  {
  }

  lemma BreakStep(p: Parser, pos: nat, lk: bool)
    requires pos < |p.toks| && p.ParseBreak(pos, lk).Ok?
    ensures var r := p.ParseBreak(pos, lk);
            && (p.SymAt(pos + 1, Colon) ==>
                 && p.AnyWordAt(pos + 2)
                 && var l := p.toks[pos + 2].w;
                    && (p.StartsExpr(pos + 3) ==>
                         var x := p.ParseExpr(pos + 3, Ctx(PrecAssign, false), lk);
                         x.Ok? && r == Ok(Break(Some(l), Some(x.value)), x.next))
                    && (!p.StartsExpr(pos + 3) ==> r == Ok(Break(Some(l), None), pos + 3)))
            && (!p.SymAt(pos + 1, Colon) && p.StartsExpr(pos + 1) ==>
                 var x := p.ParseExpr(pos + 1, Ctx(PrecAssign, false), lk);
                 x.Ok? && r == Ok(Break(None, Some(x.value)), x.next))
            && (!p.SymAt(pos + 1, Colon) && !p.StartsExpr(pos + 1) ==> r == Ok(Break(None, None), pos + 1))
  {
  }

  lemma IfStep(p: Parser, pos: nat)
    requires pos < |p.toks| && p.ParseIf(pos).Ok?
    ensures var r := p.ParseIf(pos);
            var cond := p.ParseExpr(pos + 1, Top, true);
            && cond.Ok?
            && var thn := p.ParseBlock(cond.next);
               && thn.Ok?
               && (!p.KeywordAt(thn.next, "else") ==> r == Ok(If(cond.value, thn.value, None), thn.next))
               && (p.KeywordAt(thn.next, "else") && p.KeywordAt(thn.next + 1, "if") ==>
                    var els := p.ParseIf(thn.next + 1);
                    els.Ok? && r == Ok(If(cond.value, thn.value, Some(els.value)), els.next))
               && (p.KeywordAt(thn.next, "else") && !p.KeywordAt(thn.next + 1, "if") ==>
                    var els := p.ParseBlock(thn.next + 1);
                    els.Ok? && r == Ok(If(cond.value, thn.value, Some(BlockE(els.value))), els.next))
  {
    hide Parser.ParseExpr, Parser.ParseBlock, WfExpr, WfBlock, WithBlock;
  }

  lemma WhileStep(p: Parser, pos: nat)
    requires pos < |p.toks| && p.ParseWhile(pos).Ok?
    ensures var cond := p.ParseExpr(pos + 1, Top, true);
            && cond.Ok?
            && var body := p.ParseBlock(cond.next);
               body.Ok? && p.ParseWhile(pos) == Ok(While(cond.value, body.value), body.next)
  {
  }

  lemma ForStep(p: Parser, pos: nat)
    requires pos < |p.toks| && p.ParseFor(pos).Ok?
    ensures p.AnyWordAt(pos + 1) && p.KeywordAt(pos + 2, "in")
    ensures var iter := p.ParseExpr(pos + 3, Top, true);
            && iter.Ok?
            && var body := p.ParseBlock(iter.next);
               body.Ok? && p.ParseFor(pos) == Ok(For(p.toks[pos + 1].w, iter.value, body.value), body.next)
  {
  }

  lemma LabeledStep(p: Parser, pos: nat)
    requires pos < |p.toks| && p.toks[pos].Word? && p.ParseLabeled(pos).Ok?
    ensures p.SymAt(pos + 1, Colon)
    ensures var r := p.ParseLabeled(pos);
            var name := p.toks[pos].w;
            && (p.SymAt(pos + 2, LBrace) ==>
                 var b := p.ParseBlock(pos + 2); b.Ok? && r == Ok(Labeled(name, BlockE(b.value)), b.next))
            && (!p.SymAt(pos + 2, LBrace) && p.KeywordAt(pos + 2, "while") ==>
                 var w := p.ParseWhile(pos + 2); w.Ok? && r == Ok(Labeled(name, w.value), w.next))
            && (!p.SymAt(pos + 2, LBrace) && !p.KeywordAt(pos + 2, "while") && p.KeywordAt(pos + 2, "for") ==>
                 var f := p.ParseFor(pos + 2); f.Ok? && r == Ok(Labeled(name, f.value), f.next))
            && (!p.SymAt(pos + 2, LBrace) && !p.KeywordAt(pos + 2, "while") && !p.KeywordAt(pos + 2, "for") ==>
                 p.KeywordAt(pos + 2, "loop")
                 && var b := p.ParseBlock(pos + 3); b.Ok? && r == Ok(Labeled(name, Loop(b.value)), b.next))
  {
  }

  lemma BlockStep(p: Parser, pos: nat)
    requires pos <= |p.toks| && p.ParseBlock(pos).Ok?
    ensures p.SymAt(pos, LBrace) && p.ParseBlock(pos) == p.ParseStmts(pos + 1, [])
  {
  }

  lemma StmtsStep(p: Parser, pos: nat, acc: seq<Expr>)
    requires pos <= |p.toks| && (forall s | s in acc :: WfExpr(s)) && p.ParseStmts(pos, acc).Ok?
    ensures var r := p.ParseStmts(pos, acc);
            && (p.SymAt(pos, RBrace) ==> r == Ok(Block(acc, None), pos + 1))
            && (!p.SymAt(pos, RBrace) ==>
                 var e := p.ParseExpr(pos, Top, true);
                 && e.Ok?
                 && (p.SymAt(e.next, RBrace) ==> r == Ok(Block(acc, Some(e.value)), e.next + 1))
                 && (!p.SymAt(e.next, RBrace) && WithBlock(e.value) ==> r == p.ParseStmts(e.next, acc + [e.value]))
                 && (!p.SymAt(e.next, RBrace) && !WithBlock(e.value) ==>
                      p.SymAt(e.next, Semi) && r == p.ParseStmts(e.next + 1, acc + [e.value])))
  {
    hide Parser.ParseExpr, WithBlock, WfExpr, WfBlock;
  }

  lemma TypeStep(p: Parser, pos: nat)
    requires pos <= |p.toks| && p.ParseType(pos).Ok?
    ensures var r := p.ParseType(pos);
            if p.AnyWordAt(pos) && p.toks[pos].w in PrimitiveTypes then r == Ok(Prim(p.toks[pos].w), pos + 1)
            else var e := p.ParseExpr(pos, Ctx(PrecAssign, false), false); e.Ok? && r == Ok(TExpr(e.value), e.next)
  {
  }

  lemma ItemValueStep(p: Parser, pos: nat)
    requires pos <= |p.toks| && p.ParseItemValue(pos).Ok?
    ensures var v := p.ParseExpr(pos, Top, true);
            && v.Ok?
            && if p.SymAt(v.next, Semi) then p.ParseItemValue(pos) == Ok(v.value, v.next + 1)
               else WithBlock(v.value) && p.ParseItemValue(pos) == v
  {
  }

  lemma ItemStep(p: Parser, pos: nat)
    requires pos <= |p.toks| && p.ParseItem(pos).Ok?
    ensures p.AnyWordAt(pos)
    ensures var name := p.toks[pos].w;
            var r := p.ParseItem(pos);
            if p.SymAt(pos + 1, ColonColon) then
              var v := p.ParseItemValue(pos + 2);
              v.Ok? && r == Ok(GlobalDef(name, None, true, v.value), v.next)
            else if p.SymAt(pos + 2, Colon) || p.SymAt(pos + 2, Eq) then
              var v := p.ParseItemValue(pos + 3);
              p.SymAt(pos + 1, Colon) && v.Ok? && r == Ok(GlobalDef(name, None, p.SymAt(pos + 2, Colon), v.value), v.next)
            else
              var ty := p.ParseType(pos + 2);
              && p.SymAt(pos + 1, Colon) && ty.Ok? && (p.SymAt(ty.next, Colon) || p.SymAt(ty.next, Eq))
              && var v := p.ParseItemValue(ty.next + 1);
                 v.Ok? && r == Ok(GlobalDef(name, Some(ty.value), p.SymAt(ty.next, Colon), v.value), v.next)
  {
  }

  lemma ItemsStep(p: Parser, pos: nat, acc: seq<Item>)
    requires pos <= |p.toks| && (forall it | it in acc :: WfItem(it)) && p.ParseItems(pos, acc).Ok?
    ensures pos == |p.toks| ==> p.ParseItems(pos, acc) == Ok(acc, pos)
    ensures pos < |p.toks| ==>
              var it := p.ParseItem(pos);
              && it.Ok?
              && (forall x | x in acc + [it.value] :: WfItem(x))
              && p.ParseItems(pos, acc) == p.ParseItems(it.next, acc + [it.value])
  {
  }

  // ---------------------------------------------------------------------
  // How the printer writes each form, one unfolding at a time

  lemma CallPrint(f: Expr, args: seq<Expr>)
    ensures Print(Call(f, args)) == Print(f) + [Sym(LParen)] + (PrintArgs(args, false) + [Sym(RParen)])
  {
  }

  lemma PrintInfix(l: Expr, r: Expr)
    ensures Print(Assign(l, r)) == Print(l) + [Sym(Eq)] + Print(r)
  {
  }

  lemma PrintBinary(o: BinOp, l: Expr, r: Expr)
    ensures Print(Binary(o, l, r)) == Print(l) + [Sym(BinPunct(o))] + Print(r)
  {
  }

  lemma PrintPostfix(x: Expr, f: string)
    ensures Print(Field(x, f)) == Print(x) + [Sym(Dot), Word(f)]
    ensures Print(Deref(x)) == Print(x) + [Sym(DotStar)]
  {
  }

  lemma PrintBlockIs(b: Block)
    ensures PrintBlock(b) == [Sym(LBrace)] + PrintBody(b, 0)
  {
  }

  lemma PrintBodyIs(b: Block, k: nat)
    ensures k < |b.stmts| ==> PrintBody(b, k) == PrintStmt(b.stmts[k]) + PrintBody(b, k + 1)
    ensures k >= |b.stmts| && b.last.Some? ==> PrintBody(b, k) == Print(b.last.value) + [Sym(RBrace)]
    ensures k >= |b.stmts| && b.last.None? ==> PrintBody(b, k) == [Sym(RBrace)]
  {
  }

  lemma PrintStmtIs(s: Expr)
    ensures PrintStmt(s) == if WithBlock(s) then Print(s) else Print(s) + [Sym(Semi)]
  {
  }

  lemma PrintInt(l: IntLit)
    ensures Print(IntLitE(l)) == [Int(l)]
  {
  }

  lemma PrintBlockForms(c: Expr, b: Block)
    ensures Print(BlockE(b)) == PrintBlock(b)
    ensures Print(Loop(b)) == [Word("loop")] + PrintBlock(b)
    ensures Print(While(c, b)) == [Word("while")] + Print(c) + PrintBlock(b)
  {
  }

  lemma PrintLabelForms(n: string, x: Expr, b: Block)
    ensures Print(Labeled(n, x)) == [Word(n), Sym(Colon)] + Print(x)
    ensures Print(For(n, x, b)) == [Word("for"), Word(n), Word("in")] + Print(x) + PrintBlock(b)
  {
  }

  lemma PrintLeaves(b: bool, w: string, ps: seq<StrPiece>)
    ensures Print(BoolLit(b)) == [Word(if b then "true" else "false")]
    ensures Print(Null) == [Word("null")]
    ensures Print(StrLitE(None, ps)) == [Str(ps)]
    ensures Print(StrLitE(Some(w), ps)) == [Word(w), Str(ps)]
  {
    assert Print(StrLitE(None, ps)) == [] + [Str(ps)];
    assert Print(StrLitE(Some(w), ps)) == [Word(w)] + [Str(ps)];
  }

  lemma PrintPath(root: PathRoot, segs: seq<string>)
    ensures Print(PathE(root, [] + segs)) == [Word(RootWord(root))] + PrintSegs(segs)
  {
    assert [] + segs == segs;
  }

  lemma PrintPrefixForms(u: UnOp, x: Expr)
    ensures Print(Unary(u, x)) == [Sym(UnPunct(u))] + Print(x)
    ensures Print(Paren(x)) == [Sym(LParen)] + Print(x) + [Sym(RParen)]
  {
  }

  lemma PrintBorrows(m: bool, x: Expr)
    ensures var operand := if m then [Word("mut")] + Print(x) else Print(x);
            && Print(Borrow(m, x)) == [Sym(Amp)] + operand
            && Print(Borrow(false, Borrow(m, x))) == [Sym(Amp), Sym(Amp)] + operand
  {
    PrintBorrow(m, x);
    PrintBorrow(false, Borrow(m, x));
  }

  lemma PrintBorrow(m: bool, x: Expr)
    ensures Print(Borrow(m, x)) == [Sym(Amp)] + (if m then [Word("mut")] + Print(x) else Print(x))
  {
    var mu: seq<Token> := if m then [Word("mut")] else [];
    var px := Print(x);
    assert Print(Borrow(m, x)) == [Sym(Amp)] + mu + px;
    Assoc([Sym(Amp)], mu, px);
    assert !m ==> mu + px == px;
  }

  lemma Assoc(a: seq<Token>, b: seq<Token>, c: seq<Token>)
    ensures a + b + c == a + (b + c)
  {
  }

  lemma PrintIf(c: Expr, t: Block, e: Expr)
    ensures Print(If(c, t, None)) == [Word("if")] + Print(c) + PrintBlock(t)
    ensures Print(If(c, t, Some(e))) == [Word("if")] + Print(c) + PrintBlock(t) + ([Word("else")] + Print(e))
  {
    assert Print(If(c, t, None)) == [Word("if")] + Print(c) + PrintBlock(t) + [];
  }

  lemma PrintReturn(v: Expr)
    ensures Print(Return(None)) == [Word("return")]
    ensures Print(Return(Some(v))) == [Word("return")] + Print(v)
  {
    assert Print(Return(None)) == [Word("return")] + [];
  }

  lemma PrintBreak(l: string, v: Expr)
    ensures Print(Break(None, None)) == [Word("break")]
    ensures Print(Break(None, Some(v))) == [Word("break")] + Print(v)
    ensures Print(Break(Some(l), None)) == [Word("break"), Sym(Colon), Word(l)]
    ensures Print(Break(Some(l), Some(v))) == [Word("break"), Sym(Colon), Word(l)] + Print(v)
  {
    BreakPrint(None, None);
    BreakPrint(None, Some(v));
    BreakPrint(Some(l), None);
    BreakPrint(Some(l), Some(v));
  }

  lemma BreakPrint(l: Option<string>, v: Option<Expr>)
    ensures Print(Break(l, v)) == [Word("break")] + (if l.Some? then [Sym(Colon), Word(l.value)] else []) + (if v.Some? then Print(v.value) else [])
  {
  }

  lemma PrintContinue(l: string)
    ensures Print(Continue(None)) == [Word("continue")]
    ensures Print(Continue(Some(l))) == [Word("continue"), Sym(Colon), Word(l)]
  {
    assert Print(Continue(None)) == [Word("continue")] + [];
    assert Print(Continue(Some(l))) == [Word("continue")] + [Sym(Colon), Word(l)];
  }

  lemma PrintArgsShort(e: Expr)
    ensures PrintArgs([], false) + [Sym(RParen)] == [Sym(RParen)]
    ensures PrintArgs([e], false) + [Sym(RParen)] == Print(e) + [Sym(RParen)]
    ensures PrintArgs([e], false) == Print(e)
  {
    assert PrintArgs([e], false) == Print(e) + [] + PrintArgs([], false);
  }

  lemma PrintArgsCons(e: Expr, more: seq<Expr>)
    requires more != []
    ensures PrintArgs([e] + more, false) + [Sym(RParen)] == Print(e) + [Sym(Comma)] + (PrintArgs(more, false) + [Sym(RParen)])
  {
    assert ([e] + more)[0] == e && ([e] + more)[1..] == more;
  }

  /** Arguments read so far, then one more and the rest */
  lemma Appended(acc: seq<Expr>, e: Expr, more: seq<Expr>)
    ensures acc + [] == acc
    ensures acc + ([e] + more) == acc + [e] + more
    ensures more == [] ==> [e] + more == [e]
  {
  }

  lemma ValueAsReadIs(v: Expr)
    ensures !WithBlock(v) ==> ValueAsRead(v, false) == Print(v) + [Sym(Semi)]
    ensures WithBlock(v) ==> ValueAsRead(v, true) == Print(v) + [Sym(Semi)] && ValueAsRead(v, false) == Print(v)
  {
  }

  lemma ItemAsReadIs(it: Item, x: bool)
    ensures it.ty.None? && it.isConst ==>
              ItemAsRead(it, x) == [Word(it.name)] + ([Sym(Colon), Sym(Colon)] + ValueAsRead(it.value, x))
    ensures it.ty.None? ==>
              ItemAsRead(it, x) == [Word(it.name), Sym(Colon), Sym(if it.isConst then Colon else Eq)] + ValueAsRead(it.value, x)
    ensures it.ty.Some? ==>
              ItemAsRead(it, x)
              == [Word(it.name), Sym(Colon)] + (PrintType(it.ty.value) + ([Sym(if it.isConst then Colon else Eq)] + ValueAsRead(it.value, x)))
  {
  }

  lemma ItemsAsReadCons(its: seq<Item>, xs: seq<bool>, it: Item, x: bool)
    requires |its| == |xs|
    ensures ItemsAsRead([it] + its, [x] + xs) == ItemAsRead(it, x) + ItemsAsRead(its, xs)
    ensures ExtrasOk(its, xs) && (x ==> WithBlock(it.value)) ==> ExtrasOk([it] + its, [x] + xs)
  {
    assert ([it] + its)[1..] == its && ([x] + xs)[1..] == xs;
    if ExtrasOk(its, xs) && (x ==> WithBlock(it.value)) {
      forall i | 0 <= i < |its| + 1 && ([x] + xs)[i] ensures WithBlock(([it] + its)[i].value) {
        if i > 0 { assert ([x] + xs)[i] == xs[i - 1] && ([it] + its)[i] == its[i - 1]; }
      }
    }
  }
}

// The syntax tree of grammar.js: one constructor per named rule that the
// rules reach from `source_file`, and the `PREC` table (grammar.js:10-41)
// with the binary-operator table of `binary_expr` (grammar.js:181-202).

module LunAst {
  import opened LunTokens

  // ---------------------------------------------------------------------
  // The precedence table

  const PrecAssign := 0
  const PrecLogOr := 1
  const PrecLogAnd := 2
  const PrecComp := 3
  const PrecEq := 4
  const PrecBitOr := 5
  const PrecBitXor := 6
  const PrecBitAnd := 7
  const PrecShift := 8
  const PrecTerm := 9
  const PrecFactor := 10
  const PrecUnary := 11
  const PrecCall := 12
  const PrecField := 13
  const PrecPrimary := 14

  /** The operators of `binary_expr`; all of them are left-associative */
  datatype BinOp =
    | Or | And
    | Gt | Ge | Lt | Le
    | EqEq | NotEq
    | BitOr | BitXor | BitAnd
    | Shr | Shl
    | Add | Sub
    | Mul | Div | Rem

  function BinLevel(o: BinOp): (l: int)
    ensures PrecLogOr <= l <= PrecFactor
  {
    match o
    case Or => PrecLogOr
    case And => PrecLogAnd
    case Gt | Ge | Lt | Le => PrecComp
    case EqEq | NotEq => PrecEq
    case BitOr => PrecBitOr
    case BitXor => PrecBitXor
    case BitAnd => PrecBitAnd
    case Shr | Shl => PrecShift
    case Add | Sub => PrecTerm
    case Mul | Div | Rem => PrecFactor
  }

  /** The token that spells each binary operator */
  function BinPunct(o: BinOp): Punct {
    match o
    case Or => PipePipe
    case And => AmpAmp
    case Gt => Punct.Gt
    case Ge => Punct.Ge
    case Lt => Punct.Lt
    case Le => Punct.Le
    case EqEq => Punct.EqEq
    case NotEq => Punct.NotEq
    case BitOr => Pipe
    case BitXor => Caret
    case BitAnd => Amp
    case Shr => Punct.Shr
    case Shl => Punct.Shl
    case Add => Plus
    case Sub => Minus
    case Mul => Star
    case Div => Slash
    case Rem => Percent
  }

  /** The binary operator a token spells in infix position, if any */
  function BinOpOf(p: Punct): (r: Option<BinOp>)
    ensures r.Some? ==> BinPunct(r.value) == p
  {
    match p
    case PipePipe => Some(Or)
    case AmpAmp => Some(And)
    case Gt => Some(BinOp.Gt)
    case Ge => Some(BinOp.Ge)
    case Lt => Some(BinOp.Lt)
    case Le => Some(BinOp.Le)
    case EqEq => Some(BinOp.EqEq)
    case NotEq => Some(BinOp.NotEq)
    case Pipe => Some(BitOr)
    case Caret => Some(BitXor)
    case Amp => Some(BitAnd)
    case Shr => Some(BinOp.Shr)
    case Shl => Some(BinOp.Shl)
    case Plus => Some(Add)
    case Minus => Some(Sub)
    case Star => Some(Mul)
    case Slash => Some(Div)
    case Percent => Some(Rem)
    case _ => None
  }

  // ---------------------------------------------------------------------
  // Expressions, blocks, items

  datatype UnOp = Neg | Not   // `-` and `!` of `left_unary_expr`

  datatype PathRoot = Orb | Name(name: string)

  datatype Expr =
    // `_expr_without_block`
    | BoolLit(b: bool)
    | IntLitE(lit: IntLit)
    | StrLitE(tag: Option<string>, pieces: seq<StrPiece>)
    | Paren(e: Expr)
    | PathE(root: PathRoot, segs: seq<string>)
    | Binary(op: BinOp, lhs: Expr, rhs: Expr)
    | Assign(lhs: Expr, rhs: Expr)
    | Unary(uop: UnOp, e: Expr)
    | Deref(e: Expr)                        // `right_unary_expr`, postfix `.*`
    | Borrow(isMut: bool, e: Expr)
    | Call(callee: Expr, args: seq<Expr>)
    | If(cond: Expr, thn: Block, els: Option<Expr>)   // `els` is another If or a BlockE
    | Return(value: Option<Expr>)
    | Break(target: Option<string>, value: Option<Expr>)
    | Continue(target: Option<string>)
    | Null
    | Field(e: Expr, field: string)
    // `_expr_with_block`
    | BlockE(block: Block)
    | While(cond: Expr, body: Block)
    | Loop(body: Block)
    | For(binder: string, iter: Expr, body: Block)  // reachable only as the body of a Labeled
    | Labeled(name: string, inner: Expr)

  /** `block`: the statements and the optional trailing `last_expr` */
  datatype Block = Block(stmts: seq<Expr>, last: Option<Expr>)

  /** `_typeexpr`: a primitive type keyword, or an expression */
  datatype TypeExpr = Prim(name: string) | TExpr(e: Expr)

  /** `global_def_item`; `isConst` records whether `:` (rather than `=`) separates the value */
  datatype Item = GlobalDef(name: string, ty: Option<TypeExpr>, isConst: bool, value: Expr)

  /** The `_expr_with_block` alternatives: used as a statement they need no `;` */
  predicate WithBlock(e: Expr) {
    e.BlockE? || e.While? || e.Loop? || e.For? || e.Labeled?
  }

  /** The `primitive_type` keywords */
  const PrimitiveTypes: set<string> := {
    "isz", "i128", "i64", "i32", "i16", "i8",
    "usz", "u128", "u64", "u32", "u16", "u8",
    "f16", "f32", "f64", "f128",
    "bool", "str", "char", "never", "void"}

  /** Words that are keywords where an expression may begin, so never a path there */
  const PrimaryKeywords: set<string> := {
    "orb", "true", "false", "null", "if", "while", "loop", "return", "break", "continue"}

  // ---------------------------------------------------------------------
  // The shape restrictions the grammar imposes on trees

  /** `labeled_expr` wraps only a block, `while`, `for` or `loop`; `for_expr`
      occurs nowhere else; an `else` branch is another `if` or a block */
  predicate WfExpr(e: Expr)
    decreases e, 1
  {
    match e
    case BoolLit(_) => true
    case IntLitE(_) => true
    case StrLitE(_, _) => true
    case Paren(x) => WfExpr(x)
    case PathE(_, _) => true
    case Binary(_, l, r) => WfExpr(l) && WfExpr(r)
    case Assign(l, r) => WfExpr(l) && WfExpr(r)
    case Unary(_, x) => WfExpr(x)
    case Deref(x) => WfExpr(x)
    case Borrow(_, x) => WfExpr(x)
    case Call(f, args) => WfExpr(f) && forall a | a in args :: WfExpr(a)
    case If(c, t, els) =>
      && WfExpr(c) && WfBlock(t)
      && (els.Some? ==> (els.value.If? || els.value.BlockE?) && WfExpr(els.value))
    case Return(v) => v.Some? ==> WfExpr(v.value)
    case Break(_, v) => v.Some? ==> WfExpr(v.value)
    case Continue(_) => true
    case Null => true
    case Field(x, _) => WfExpr(x)
    case BlockE(b) => WfBlock(b)
    case While(c, b) => WfExpr(c) && WfBlock(b)
    case Loop(b) => WfBlock(b)
    case For(_, _, _) => false
    case Labeled(_, inner) =>
      match inner
      case BlockE(b) => WfBlock(b)
      case While(c, b) => WfExpr(c) && WfBlock(b)
      case Loop(b) => WfBlock(b)
      case For(_, it, b) => WfExpr(it) && WfBlock(b)
      case _ => false
  }

  predicate WfBlock(b: Block)
    decreases b, 0
  {
    && (forall s | s in b.stmts :: WfExpr(s))
    && (b.last.Some? ==> WfExpr(b.last.value))
  }

  predicate WfType(t: TypeExpr) {
    match t
    case Prim(name) => name in PrimitiveTypes
    case TExpr(e) => WfExpr(e) && !e.Labeled?
  }

  predicate WfItem(it: Item) {
    WfExpr(it.value) && (it.ty.Some? ==> WfType(it.ty.value))
  }
}

// Tokens of the Lun language and the character classes of its lexical rules
// (grammar.js, the token rules `identifier`, `integer_lit`, `string_lit`,
// `escape_sequence` and `comment`).

module LunTokens {

  datatype Option<+T> = None | Some(value: T)

  // ---------------------------------------------------------------------
  // Character classes

  predicate IsLetter(c: char) { ('a' <= c <= 'z') || ('A' <= c <= 'Z') }
  predicate IsDigit(c: char) { '0' <= c <= '9' }
  predicate IsHexDigit(c: char) { IsDigit(c) || ('a' <= c <= 'f') || ('A' <= c <= 'F') }
  predicate IsBinDigit(c: char) { c == '0' || c == '1' }
  predicate IsOctDigit(c: char) { '0' <= c <= '7' }

  /** `[a-zA-Z_]`, the first character of an identifier */
  predicate IsIdentStart(c: char) { IsLetter(c) || c == '_' }
  /** `[a-zA-Z0-9_]`, a later character of an identifier, also the tag alphabet of integers */
  predicate IsIdentChar(c: char) { IsIdentStart(c) || IsDigit(c) }

  /** The ASCII part of the `\s` class used by the `extras` rule */
  predicate IsSpace(c: char) {
    c == ' ' || c == '\t' || c == '\n' || c == '\r' || c == '\U{000B}' || c == '\U{000C}'
  }

  // The identifier regex `[a-zA-Z_][a-zA-Z0-9_]*` as a predicate on a whole word
  predicate IsIdent(w: string) {
    |w| > 0 && IsIdentStart(w[0]) && forall k :: 1 <= k < |w| ==> IsIdentChar(w[k])
  }

  // ---------------------------------------------------------------------
  // Integer literals: the four forms of `integer_lit` and the optional tag

  datatype Radix = Dec | Bin | Oct | Hex

  /** `digits` is the text after the `0b`/`0o`/`0x` prefix (all of it for decimal) */
  datatype IntLit = IntLit(radix: Radix, digits: string, tag: Option<string>)

  function RadixPrefix(r: Radix): string {
    match r
    case Dec => ""
    case Bin => "0b"
    case Oct => "0o"
    case Hex => "0x"
  }

  /** The digit alphabet of each form; only the hex form admits no `_` */
  predicate IsRadixChar(r: Radix, c: char) {
    match r
    case Dec => IsDigit(c) || c == '_'
    case Bin => IsBinDigit(c) || c == '_'
    case Oct => IsOctDigit(c) || c == '_'
    case Hex => IsHexDigit(c)
  }

  /** The regexes `[0-9][0-9_]*`, `0b[01_]+`, `0o[0-7_]+`, `0x[0-9a-fA-F]+` on the digit part */
  predicate WfDigits(r: Radix, d: string) {
    && |d| > 0
    && (r == Dec ==> IsDigit(d[0]))
    && forall k :: 0 <= k < |d| ==> IsRadixChar(r, d[k])
  }

  /** The tag regex `[a-zA-Z0-9_]+` */
  predicate WfTag(t: string) {
    |t| > 0 && forall k :: 0 <= k < |t| ==> IsIdentChar(t[k])
  }

  predicate WfIntLit(l: IntLit) {
    WfDigits(l.radix, l.digits) && (l.tag.Some? ==> WfTag(l.tag.value))
  }

  function IntText(l: IntLit): string {
    RadixPrefix(l.radix) + l.digits + (if l.tag.Some? then "'" + l.tag.value else "")
  }

  // ---------------------------------------------------------------------
  // String literals: content runs and escape sequences

  datatype StrPiece =
    | Content(run: string)   // `[^\\"\n]+`
    | Escape(text: string)   // the whole escape, backslash included

  predicate IsContentChar(c: char) { c != '\\' && c != '"' && c != '\n' }

  predicate AllHex(w: string) { forall k :: 0 <= k < |w| ==> IsHexDigit(w[k]) }

  /** The `escape_sequence` rule as a predicate on the whole escape text */
  predicate IsEscape(w: string) {
    || (|w| == 2 && w[0] == '\\' && w[1] in "0nrtvabe\\")
    || (|w| == 4 && w[..2] == "\\x" && AllHex(w[2..]))
    || (|w| >= 5 && w[..3] == "\\u{" && w[|w| - 1] == '}' && AllHex(w[3..|w| - 1]))
  }

  predicate WfPiece(p: StrPiece) {
    match p
    case Content(run) => |run| > 0 && forall k :: 0 <= k < |run| ==> IsContentChar(run[k])
    case Escape(text) => IsEscape(text)
  }

  // ---------------------------------------------------------------------
  // Punctuation and operators

  datatype Punct =
    | LBrace | RBrace | LParen | RParen | Semi | Colon | ColonColon | Comma
    | Dot | DotStar | Eq | EqEq | NotEq | Bang | Lt | Le | Shl | Gt | Ge | Shr
    | Plus | Minus | Star | Slash | Percent | Amp | AmpAmp | Pipe | PipePipe | Caret

  function PunctText(p: Punct): (t: string)
    ensures 1 <= |t| <= 2
  {
    match p
    case LBrace => "{"      case RBrace => "}"     case LParen => "("   case RParen => ")"
    case Semi => ";"        case Colon => ":"      case ColonColon => "::"
    case Comma => ","       case Dot => "."        case DotStar => ".*"
    case Eq => "="          case EqEq => "=="      case NotEq => "!="   case Bang => "!"
    case Lt => "<"          case Le => "<="        case Shl => "<<"
    case Gt => ">"          case Ge => ">="        case Shr => ">>"
    case Plus => "+"        case Minus => "-"      case Star => "*"     case Slash => "/"
    case Percent => "%"     case Amp => "&"        case AmpAmp => "&&"
    case Pipe => "|"        case PipePipe => "||"  case Caret => "^"
  }

  // ---------------------------------------------------------------------
  // Tokens and lexemes

  /** Words are not split into identifiers and keywords here: the grammar's
      keyword extraction makes a word a keyword only where the keyword is
      valid, so the parser decides by position. */
  datatype Token =
    | Word(w: string)
    | Int(lit: IntLit)
    | Str(pieces: seq<StrPiece>)   // the quoted part of a `string_lit`; its tag is a preceding Word
    | Sym(p: Punct)

  datatype Trivia = Whitespace | LineComment | BlockComment

  datatype Kind = Skip(trivia: Trivia) | Tok(token: Token)

  /** A lexeme keeps its exact source text, so the token stream plus trivia is lossless */
  datatype Lexeme = Lexeme(kind: Kind, text: string)

  function Texts(ls: seq<Lexeme>): string {
    if ls == [] then "" else ls[0].text + Texts(ls[1..])
  }

  function TokensOf(ls: seq<Lexeme>): seq<Token> {
    if ls == [] then []
    else if ls[0].kind.Tok? then [ls[0].kind.token] + TokensOf(ls[1..])
    else TokensOf(ls[1..])
  }
}

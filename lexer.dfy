// The lexical layer of grammar.js: the token rules `identifier` (line 370),
// `integer_lit` (326-334), `string_lit` with `escape_sequence` (336-367),
// `comment` (319-324) and the whitespace of `extras` (46-49).  Every scanner
// starts at an index into the text and returns where its lexeme ends; the
// lexer is the longest-match loop over them and keeps every character, so
// the lexemes concatenate back to the input.

module LunLexer {
  import opened LunTokens

  lemma SliceOfSlice<T>(s: seq<T>, i: nat, j: nat, a: nat, b: nat)
    requires i <= j <= |s| && a <= b <= j - i
    ensures s[i..j][a..b] == s[i + a..i + b]
  {
    assert |s[i..j][a..b]| == b - a;
    forall x | 0 <= x < b - a ensures s[i..j][a..b][x] == s[i + a..i + b][x] { }
  }

  lemma SliceSplit<T>(s: seq<T>, a: nat, b: nat, c: nat)
    requires a <= b <= c <= |s|
    ensures s[a..c] == s[a..b] + s[b..c]
  {
  }

  /** The end of the longest run of characters satisfying `p` from `i` */
  function SpanWhile(s: string, i: nat, p: char -> bool): (j: nat)
    requires i <= |s|
    ensures i <= j <= |s|
    ensures forall k :: i <= k < j ==> p(s[k])
    ensures j == |s| || !p(s[j])
    decreases |s| - i
  {
    if i < |s| && p(s[i]) then SpanWhile(s, i + 1, p) else i
  }

  // ---------------------------------------------------------------------
  // identifier

  /** `identifier`: a maximal run `[a-zA-Z_][a-zA-Z0-9_]*` */
  function WordAt(s: string, i: nat): (j: nat)
    requires i < |s| && IsIdentStart(s[i])
    ensures i < j <= |s| && IsIdent(s[i..j])
    ensures j == |s| || !IsIdentChar(s[j])
  {
    SpanWhile(s, i + 1, IsIdentChar)
  }

  // ---------------------------------------------------------------------
  // integer_lit

  /** Which of the four forms applies at `i`: a prefixed form needs at least
      one digit of its alphabet after the prefix, otherwise only the decimal
      form matches (and, being shorter, loses to any prefixed match). */
  function RadixAt(s: string, i: nat): (r: Radix)
    requires i < |s| && IsDigit(s[i])
    ensures r != Dec ==> i + 2 < |s| && s[i..i + 2] == RadixPrefix(r) && IsRadixChar(r, s[i + 2])
  {
    if s[i] == '0' && i + 2 < |s| && s[i + 1] == 'b' && IsRadixChar(Bin, s[i + 2]) then Bin
    else if s[i] == '0' && i + 2 < |s| && s[i + 1] == 'o' && IsRadixChar(Oct, s[i + 2]) then Oct
    else if s[i] == '0' && i + 2 < |s| && s[i + 1] == 'x' && IsRadixChar(Hex, s[i + 2]) then Hex
    else Dec
  }

  /** The digit run of the form chosen at `i` is well formed, after its prefix */
  lemma DigitsOk(s: string, i: nat, radix: Radix, start: nat, dEnd: nat)
    requires i < |s| && IsDigit(s[i]) && radix == RadixAt(s, i)
    requires start == (if radix == Dec then i else i + 2) && start <= dEnd <= |s|
    requires forall k :: start <= k < dEnd ==> IsRadixChar(radix, s[k])
    requires dEnd == |s| || !IsRadixChar(radix, s[dEnd])
    ensures start < dEnd && WfDigits(radix, s[start..dEnd]) && s[i..start] == RadixPrefix(radix)
  {
    assert IsRadixChar(radix, s[start]);
    var d := s[start..dEnd];
    forall k | 0 <= k < |d| ensures IsRadixChar(radix, d[k]) {
      assert d[k] == s[start + k];
    }
  }

  /** The `'tag` suffix, a nonempty run of identifier characters after the quote */
  lemma TagOk(s: string, i: nat, start: nat, dEnd: nat, tEnd: nat)
    requires i <= start <= dEnd && dEnd + 1 < tEnd <= |s| && s[dEnd] == '\''
    requires forall k :: dEnd + 1 <= k < tEnd ==> IsIdentChar(s[k])
    ensures WfTag(s[dEnd + 1..tEnd])
    ensures s[i..tEnd] == s[i..start] + s[start..dEnd] + "'" + s[dEnd + 1..tEnd]
  {
    var tag := s[dEnd + 1..tEnd];
    forall k | 0 <= k < |tag| ensures IsIdentChar(tag[k]) {
      assert tag[k] == s[dEnd + 1 + k];
    }
    SliceSplit(s, i, dEnd, tEnd);
    SliceSplit(s, i, start, dEnd);
    SliceSplit(s, dEnd, dEnd + 1, tEnd);
    assert s[dEnd..dEnd + 1] == "'";
  }

  /** `integer_lit`: the longest form at `i`, then the optional `'tag` */
  function IntAt(s: string, i: nat): (r: (IntLit, nat))
    requires i < |s| && IsDigit(s[i])
    ensures i < r.1 <= |s|
    ensures WfIntLit(r.0) && IntText(r.0) == s[i..r.1]
  {
    var radix := RadixAt(s, i);
    var start := if radix == Dec then i else i + 2;
    var dEnd := SpanWhile(s, start, c => IsRadixChar(radix, c));
    DigitsOk(s, i, radix, start, dEnd);
    IntTagAt(s, i, radix, start, dEnd)
  }

  /** The optional `'tag` after the digits `s[start..dEnd]` of an `integer_lit` */
  function IntTagAt(s: string, i: nat, radix: Radix, start: nat, dEnd: nat): (r: (IntLit, nat))
    requires i <= start < dEnd <= |s| && WfDigits(radix, s[start..dEnd]) && s[i..start] == RadixPrefix(radix)
    ensures dEnd <= r.1 <= |s| && r.0.radix == radix && r.0.digits == s[start..dEnd]
    ensures WfIntLit(r.0) && IntText(r.0) == s[i..r.1]
  {
    if dEnd + 1 < |s| && s[dEnd] == '\'' && IsIdentChar(s[dEnd + 1]) then
      var tEnd := SpanWhile(s, dEnd + 1, IsIdentChar);
      TagOk(s, i, start, dEnd, tEnd);
      (IntLit(radix, s[start..dEnd], Some(s[dEnd + 1..tEnd])), tEnd)
    else
      SliceSplit(s, i, start, dEnd);
      (IntLit(radix, s[start..dEnd], None), dEnd)
  }

  function EscapeAt(s: string, i: nat): (r: Option<nat>)
    requires i < |s| && s[i] == '\\'
    ensures r.Some? ==> i + 2 <= r.value <= |s| && IsEscape(s[i..r.value])
  {
    if i + 1 == |s| then None
    else if s[i + 1] in "0nrtvabe\\" then Some(i + 2)
    else if s[i + 1] == 'x' then
      if i + 3 < |s| && IsHexDigit(s[i + 2]) && IsHexDigit(s[i + 3]) then Some(i + 4) else None
    else if s[i + 1] == 'u' && i + 2 < |s| && s[i + 2] == '{' then
      var h := SpanWhile(s, i + 3, IsHexDigit);
      if i + 3 < h < |s| && s[h] == '}' then
        var w := s[i..h + 1];
        assert w[..3] == [s[i], s[i + 1], s[i + 2]] == "\\u{";
        var d := w[3..|w| - 1];
        forall k | 0 <= k < |d| ensures IsHexDigit(d[k]) {
          assert d[k] == s[i + 3 + k];
        }
        Some(h + 1)
      else None
    else None
  }

  // ---------------------------------------------------------------------
  // The scanners read exactly the lexemes of their rules

  /** A run of `p` characters that stops before a non-`p` character is what SpanWhile reads */
  lemma SpanExact(s: string, i: nat, j: nat, p: char -> bool)
    requires i <= j <= |s|
    requires forall k :: i <= k < j ==> p(s[k])
    requires j == |s| || !p(s[j])
    ensures SpanWhile(s, i, p) == j
  {
  }

  /** The converse of WordAt: an identifier not followed by an identifier character is read whole */
  lemma WordExact(s: string, i: nat, j: nat)
    requires i < j <= |s| && IsIdent(s[i..j])
    requires j == |s| || !IsIdentChar(s[j])
    ensures IsIdentStart(s[i]) && WordAt(s, i) == j
  {
    assert s[i] == s[i..j][0];
    forall k | i + 1 <= k < j ensures IsIdentChar(s[k]) {
      assert s[k] == s[i..j][k - i];
    }
    SpanExact(s, i + 1, j, IsIdentChar);
  }

  lemma RadixIsIdent(r: Radix, c: char)
    requires IsRadixChar(r, c)
    ensures IsIdentChar(c) && c != '\''
  {
  }

  /** Where the prefix, digits and tag of a literal's text sit once it is placed at `i` */
  lemma IntPieces(s: string, i: nat, l: IntLit)
    requires i + |IntText(l)| <= |s| && s[i..i + |IntText(l)|] == IntText(l)
    ensures var start := i + |RadixPrefix(l.radix)|;
            var dEnd := start + |l.digits|;
            && s[i..start] == RadixPrefix(l.radix) && s[start..dEnd] == l.digits
            && (l.tag.None? ==> dEnd == i + |IntText(l)|)
            && (l.tag.Some? ==> s[dEnd] == '\'' && s[dEnd + 1..i + |IntText(l)|] == l.tag.value)
  {
    var pre := RadixPrefix(l.radix);
    var tg := if l.tag.Some? then "'" + l.tag.value else "";
    var e := i + |IntText(l)|;
    var start := i + |pre|;
    var dEnd := start + |l.digits|;
    assert IntText(l) == pre + l.digits + tg;
    SliceOfSlice(s, i, e, 0, |pre|);
    SliceOfSlice(s, i, e, |pre|, |pre| + |l.digits|);
    SliceOfSlice(s, i, e, |pre| + |l.digits|, |IntText(l)|);
    assert s[dEnd..e] == tg;
    if l.tag.Some? {
      assert s[dEnd] == s[dEnd..e][0];
      assert s[dEnd + 1..e] == s[dEnd..e][1..];
    }
  }

  /** The first characters of a literal's text select its own form */
  lemma RadixExact(s: string, i: nat, l: IntLit)
    requires WfIntLit(l) && i + |IntText(l)| <= |s| && s[i..i + |IntText(l)|] == IntText(l)
    requires i + |IntText(l)| == |s| || !IsIdentChar(s[i + |IntText(l)|])
    ensures IsDigit(s[i]) && RadixAt(s, i) == l.radix
  {
    IntPieces(s, i, l);
    var start := i + |RadixPrefix(l.radix)|;
    var dEnd := start + |l.digits|;
    assert s[start] == s[start..dEnd][0] == l.digits[0];
    if l.radix == Dec {
      if s[i] == '0' && i + 2 < |s| {
        if 1 < |l.digits| {
          assert s[i + 1] == s[start..dEnd][1] == l.digits[1];
          assert IsRadixChar(Dec, l.digits[1]);
        } else if l.tag.None? && dEnd < |s| {
          assert !IsIdentChar(s[i + 1]);
        }
      }
    } else {
      assert s[i] == s[i..start][0] && s[i + 1] == s[i..start][1];
    }
  }

  /** The tag part of IntExact: after the digits comes the literal's own tag, or nothing */
  lemma TagExact(s: string, i: nat, l: IntLit, start: nat, dEnd: nat)
    requires WfIntLit(l) && i + |IntText(l)| <= |s| && s[i..i + |IntText(l)|] == IntText(l)
    requires i + |IntText(l)| == |s| || (!IsIdentChar(s[i + |IntText(l)|]) && s[i + |IntText(l)|] != '\'')
    requires start == i + |RadixPrefix(l.radix)| && dEnd == start + |l.digits|
    ensures dEnd <= |s| && s[i..start] == RadixPrefix(l.radix) && s[start..dEnd] == l.digits
    ensures IntTagAt(s, i, l.radix, start, dEnd) == (l, i + |IntText(l)|)
  {
    IntPieces(s, i, l);
    var e := i + |IntText(l)|;
    if l.tag.Some? {
      var tag := l.tag.value;
      forall k | dEnd + 1 <= k < e ensures IsIdentChar(s[k]) {
        assert s[k] == s[dEnd + 1..e][k - dEnd - 1];
      }
      assert s[dEnd + 1] == tag[0];
      SpanExact(s, dEnd + 1, e, IsIdentChar);
    }
  }

  /** The converse of IntAt: the text of a well-formed literal, followed by
      neither an identifier character nor a quote, is read back as that literal */
  lemma IntExact(s: string, i: nat, l: IntLit)
    requires WfIntLit(l) && i + |IntText(l)| <= |s| && s[i..i + |IntText(l)|] == IntText(l)
    requires i + |IntText(l)| == |s| || (!IsIdentChar(s[i + |IntText(l)|]) && s[i + |IntText(l)|] != '\'')
    ensures IsDigit(s[i]) && IntAt(s, i) == (l, i + |IntText(l)|)
  {
    RadixExact(s, i, l);
    var start := i + |RadixPrefix(l.radix)|;
    var dEnd := start + |l.digits|;
    TagExact(s, i, l, start, dEnd);
    forall k | start <= k < dEnd ensures IsRadixChar(l.radix, s[k]) {
      assert s[k] == s[start..dEnd][k - start];
    }
    if dEnd < |s| && IsRadixChar(l.radix, s[dEnd]) {
      RadixIsIdent(l.radix, s[dEnd]);
      IntPieces(s, i, l);
      assert false;
    }
    assert start == (if l.radix == Dec then i else i + 2);
    SpanExact(s, start, dEnd, c => IsRadixChar(l.radix, c));
  }

  /** EscapeAt accepts exactly the `escape_sequence` texts: reading from a
      backslash ends at `j` if and only if the text up to `j` is an escape */
  lemma EscapeExact(s: string, i: nat, j: nat)
    requires i < j <= |s| && s[i] == '\\'
    ensures EscapeAt(s, i) == Some(j) <==> IsEscape(s[i..j])
  {
    var w := s[i..j];
    if IsEscape(w) {
      assert forall k :: i <= k < j ==> s[k] == w[k - i];
      if |w| >= 5 && w[..3] == "\\u{" {
        assert w[1] == 'u' && w[2] == '{';
        assert forall k :: i + 3 <= k < j - 1 ==> s[k] == w[3..|w| - 1][k - i - 3];
        SpanExact(s, i + 3, j - 1, IsHexDigit);
      } else if |w| == 4 && w[..2] == "\\x" {
        assert w[1] == 'x' && IsHexDigit(w[2..][0]) && IsHexDigit(w[2..][1]);
      }
    }
  }

  // ---------------------------------------------------------------------
  // string_lit

  function PiecesText(ps: seq<StrPiece>): string {
    if ps == [] then "" else
      PieceText(ps[0]) + PiecesText(ps[1..])
  }

  predicate AllSpace(w: string) { forall k :: 0 <= k < |w| ==> IsSpace(w[k]) }

  function PieceText(p: StrPiece): string {
    match p
    case Content(run) => run
    case Escape(text) => text
  }

  predicate AllWfPieces(ps: seq<StrPiece>) {
    forall n :: 0 <= n < |ps| ==> WfPiece(ps[n])
  }

  /** No content run follows another: each `string_content` token is a
      maximal run of content characters */
  predicate RunsApart(ps: seq<StrPiece>) {
    forall n | 0 <= n < |ps| - 1 :: !(ps[n].Content? && ps[n + 1].Content?)
  }

  /** `s[k..end]` is the pieces' text, then the closing quote, or else a
      newline, more whitespace and the closing quote */
  predicate BodyShape(s: string, k: nat, ps: seq<StrPiece>, end: nat) {
    && k + |PiecesText(ps)| < end <= |s|
    && s[k..k + |PiecesText(ps)|] == PiecesText(ps)
    && AllSpace(s[k + |PiecesText(ps)|..end - 1])
    && (k + |PiecesText(ps)| < end - 1 ==> s[k + |PiecesText(ps)|] == '\n')
    && s[end - 1] == '"'
    && AllWfPieces(ps)
    && RunsApart(ps)
  }

  lemma PiecesCons(p: StrPiece, ps: seq<StrPiece>)
    ensures PiecesText([p] + ps) == PieceText(p) + PiecesText(ps)
    ensures AllWfPieces([p] + ps) == (WfPiece(p) && AllWfPieces(ps))
    ensures RunsApart([p] + ps) == (!(p.Content? && ps != [] && ps[0].Content?) && RunsApart(ps))
  {
    var ps' := [p] + ps;
    assert ps'[1..] == ps;
    assert forall n :: 1 <= n < |ps'| ==> ps'[n] == ps[n - 1];
    if RunsApart(ps') {
      forall n | 0 <= n < |ps| - 1 ensures !(ps[n].Content? && ps[n + 1].Content?) {
        assert ps'[n + 1] == ps[n] && ps'[n + 2] == ps[n + 1];
      }
    }
  }

  lemma PrependPiece(s: string, k: nat, j: nat, p: StrPiece, ps: seq<StrPiece>, end: nat)
    requires k <= j <= |s| && s[k..j] == PieceText(p) && WfPiece(p)
    requires BodyShape(s, j, ps, end) && !(p.Content? && ps != [] && ps[0].Content?)
    ensures BodyShape(s, k, [p] + ps, end)
  {
    PiecesCons(p, ps);
    var t := |PiecesText(ps)|;
    assert k + |PiecesText([p] + ps)| == j + t;
    SliceSplit(s, k, j, j + t);
    assert s[k..j + t] == PiecesText([p] + ps);
  }

  /** The first character of a body: that of its first piece, or the
      closing quote, or the newline before it */
  lemma BodyHead(s: string, k: nat, ps: seq<StrPiece>, end: nat)
    requires BodyShape(s, k, ps, end)
    ensures k < |s|
    ensures ps != [] ==> |PieceText(ps[0])| > 0 && s[k] == PieceText(ps[0])[0]
    ensures ps == [] ==> s[k] == '"' || s[k] == '\n'
  {
    if ps != [] {
      PiecesCons(ps[0], ps[1..]);
      assert [ps[0]] + ps[1..] == ps;
      assert WfPiece(ps[0]);
      assert s[k] == s[k..k + |PiecesText(ps)|][0];
    }
  }

  /** A body without its first piece is a body */
  lemma BodyTail(s: string, k: nat, ps: seq<StrPiece>, end: nat)
    requires BodyShape(s, k, ps, end) && ps != []
    ensures var q := k + |PieceText(ps[0])|;
            && q <= |s| && s[k..q] == PieceText(ps[0]) && WfPiece(ps[0])
            && BodyShape(s, q, ps[1..], end)
            && !(ps[0].Content? && ps[1..] != [] && ps[1..][0].Content?)
  {
    PiecesCons(ps[0], ps[1..]);
    assert [ps[0]] + ps[1..] == ps;
    var q := k + |PieceText(ps[0])|;
    var t := |PiecesText(ps[1..])|;
    SliceOfSlice(s, k, k + |PiecesText(ps)|, 0, q - k);
    SliceOfSlice(s, k, k + |PiecesText(ps)|, q - k, q - k + t);
  }

  /** An escape text begins with its backslash */
  lemma EscapeHead(t: string)
    requires IsEscape(t)
    ensures |t| >= 2 && t[0] == '\\'
  {
    if |t| == 4 { assert t[0] == t[..2][0]; }
    else if |t| >= 5 && t[..3] == "\\u{" { assert t[0] == t[..3][0]; }
  }

  /** A string body from `k` (after the opening quote) up to and including the
      closing quote: maximal content runs and escapes; a newline cannot be
      content, so from a newline only whitespace (skipped as `extras`) may
      come before the closing quote. Comments, the other `extras`, and
      escapes are not read there. */
  function StrBody(s: string, k: nat): (r: Option<(seq<StrPiece>, nat)>)
    requires k <= |s|
    ensures r.Some? ==> BodyShape(s, k, r.value.0, r.value.1)
    decreases |s| - k
  {
    if k == |s| then None
    else if s[k] == '"' then Some(([], k + 1))
    else if s[k] == '\\' then
      var e := EscapeAt(s, k);
      if e.None? then None
      else
        var r := StrBody(s, e.value);
        if r.None? then None
        else
          PrependPiece(s, k, e.value, Escape(s[k..e.value]), r.value.0, r.value.1);
          Some(([Escape(s[k..e.value])] + r.value.0, r.value.1))
    else if s[k] == '\n' then
      var w := SpanWhile(s, k, IsSpace);
      if w < |s| && s[w] == '"' then Some(([], w + 1)) else None
    else
      var c := SpanWhile(s, k, IsContentChar);
      var r := StrBody(s, c);
      if r.None? then None
      else
        BodyHead(s, c, r.value.0, r.value.1);
        PrependPiece(s, k, c, Content(s[k..c]), r.value.0, r.value.1);
        Some(([Content(s[k..c])] + r.value.0, r.value.1))
  }

  /** An escape followed by a body is read as that escape, then the body */
  lemma EscapeFirst(s: string, k: nat, ps: seq<StrPiece>, end: nat)
    requires BodyShape(s, k, ps, end) && ps != [] && ps[0].Escape?
    ensures var q := k + |ps[0].text|;
            && k < |s| && s[k] == '\\' && EscapeAt(s, k) == Some(q) && s[k..q] == ps[0].text
            && BodyShape(s, q, ps[1..], end)
  {
    hide BodyShape, PiecesText, AllWfPieces, RunsApart, AllSpace;
    BodyTail(s, k, ps, end);
    EscapeHead(ps[0].text);
    BodyHead(s, k, ps, end);
    EscapeExact(s, k, k + |ps[0].text|);
  }

  /** A content run followed by a body is read as that run, then the body */
  lemma ContentFirst(s: string, k: nat, ps: seq<StrPiece>, end: nat)
    requires BodyShape(s, k, ps, end) && ps != [] && ps[0].Content?
    ensures var q := k + |ps[0].run|;
            && k < |s| && IsContentChar(s[k]) && SpanWhile(s, k, IsContentChar) == q
            && s[k..q] == ps[0].run && BodyShape(s, q, ps[1..], end)
  {
    hide BodyShape, PiecesText, AllWfPieces, RunsApart, AllSpace;
    BodyTail(s, k, ps, end);
    var q := k + |ps[0].run|;
    var run := ps[0].run;
    forall m | k <= m < q ensures IsContentChar(s[m]) {
      assert s[m] == run[m - k];
    }
    BodyHead(s, q, ps[1..], end);
    if ps[1..] != [] && ps[1..][0].Escape? {
      BodyTail(s, q, ps[1..], end);
      EscapeHead(ps[1..][0].text);
    }
    SpanExact(s, k, q, IsContentChar);
  }

  /** A body with no pieces: the closing quote, or a newline and
      whitespace before it */
  lemma EmptyBodyExact(s: string, k: nat, end: nat)
    requires BodyShape(s, k, [], end)
    ensures StrBody(s, k) == Some(([], end))
  {
    BodyHead(s, k, [], end);
    if k < end - 1 {
      forall m | k <= m < end - 1 ensures IsSpace(s[m]) {
        assert s[m] == s[k..end - 1][m - k];
      }
      SpanExact(s, k, end - 1, IsSpace);
    }
  }

  lemma EscapeStep(s: string, k: nat, q: nat, t: string, rest: seq<StrPiece>, end: nat)
    requires k < q <= |s| && s[k] == '\\' && EscapeAt(s, k) == Some(q) && s[k..q] == t
    requires StrBody(s, q) == Some((rest, end))
    ensures StrBody(s, k) == Some(([Escape(t)] + rest, end))
  {
  }

  lemma ContentStep(s: string, k: nat, q: nat, t: string, rest: seq<StrPiece>, end: nat)
    requires k < |s| && IsContentChar(s[k]) && SpanWhile(s, k, IsContentChar) == q && s[k..q] == t
    requires StrBody(s, q) == Some((rest, end))
    ensures StrBody(s, k) == Some(([Content(t)] + rest, end))
  {
  }

  /** The converse of StrBody: a body of well-formed pieces, closed as
      BodyShape says, is read whole, piece by piece */
  lemma {:induction false} StrExact(s: string, k: nat, ps: seq<StrPiece>, end: nat)
    requires BodyShape(s, k, ps, end)
    ensures StrBody(s, k) == Some((ps, end))
    decreases |ps|
  {
    hide StrBody, BodyShape;
    if ps == [] {
      EmptyBodyExact(s, k, end);
    } else if ps[0].Escape? {
      EscapeFirst(s, k, ps, end);
      var q := k + |ps[0].text|;
      StrExact(s, q, ps[1..], end);
      EscapeStep(s, k, q, ps[0].text, ps[1..], end);
      assert [Escape(ps[0].text)] + ps[1..] == ps;
    } else {
      ContentFirst(s, k, ps, end);
      var q := k + |ps[0].run|;
      StrExact(s, q, ps[1..], end);
      ContentStep(s, k, q, ps[0].run, ps[1..], end);
      assert [Content(ps[0].run)] + ps[1..] == ps;
    }
  }

  // ---------------------------------------------------------------------
  // comment

  /** The newline at `m` continues a line comment that began at `a`: a
      backslash, or a backslash and a carriage return, comes right before it */
  predicate Escaped(s: string, a: nat, m: nat)
    requires a <= m < |s|
  {
    (a + 1 <= m && s[m - 1] == '\\') || (a + 2 <= m && s[m - 1] == '\r' && s[m - 2] == '\\')
  }

  /** `s[a..b]` is a text that `(\\+(.|\r?\n)|[^\\\n])*` matches (`.` is any
      character but a newline): a backslash run takes the character after
      it, or a `\r\n`, so every newline of the text follows a backslash run,
      and the text does not end in a lone backslash */
  predicate CommentSpan(s: string, a: nat, b: nat)
    requires a <= b <= |s|
  {
    && (forall m | a <= m < b && s[m] == '\n' :: Escaped(s, a, m))
    && !(a < b && s[b - 1] == '\\' && (b - 1 == a || s[b - 2] != '\\'))
  }

  /** The body of a line comment, after its `//` */
  predicate IsLineCommentBody(w: string) {
    CommentSpan(w, 0, |w|)
  }

  /** The body of a line comment from `k` (after `//`): the longest match of
      `(\\+(.|\r?\n)|[^\\\n])*`. It stops before a newline, except that a
      run of backslashes takes the character after it (a `\r\n` counts as
      one), which carries the comment onto the next line. A run that ends
      the text is taken whole, unless it is a single backslash. */
  function LineCommentEnd(s: string, k: nat): (j: nat)
    requires k <= |s|
    ensures k <= j <= |s|
    ensures j == |s| || s[j] == '\n' || (s[j] == '\\' && j + 1 == |s|)
    decreases |s| - k
  {
    if k == |s| || s[k] == '\n' then k
    else if s[k] != '\\' then LineCommentEnd(s, k + 1)
    else
      var r := SpanWhile(s, k, c => c == '\\');
      if r == |s| then (if r - k >= 2 then r else k)
      else if s[r] == '\r' && r + 1 < |s| && s[r + 1] == '\n' then LineCommentEnd(s, r + 2)
      else LineCommentEnd(s, r + 1)
  }

  /** A piece `s[k..q]` of a comment body that ends in no backslash and does
      not make a newline at `q` look escaped: a text that goes on after it
      matches from `k` exactly when it matches from `q` */
  lemma PieceBoundary(s: string, k: nat, q: nat, b: nat)
    requires k < q <= b <= |s| && CommentSpan(s, k, q) && s[q - 1] != '\\'
    requires !(q < |s| && s[q] == '\n' && s[q - 1] == '\r' && k + 2 <= q && s[q - 2] == '\\')
    ensures CommentSpan(s, k, b) <==> CommentSpan(s, q, b)
  {
    if CommentSpan(s, q, b) {
      forall m | k <= m < b && s[m] == '\n' ensures Escaped(s, k, m) {
        if m >= q { assert Escaped(s, q, m); }
      }
    }
    if CommentSpan(s, k, b) {
      forall m | q <= m < b && s[m] == '\n' ensures Escaped(s, q, m) {
        assert Escaped(s, k, m);
      }
    }
  }

  /** `s[k..j]` is the longest text from `k` that a line comment body matches */
  predicate LongestBody(s: string, k: nat, j: nat)
    requires k <= j <= |s|
  {
    CommentSpan(s, k, j) && forall b | j < b <= |s| :: !CommentSpan(s, k, b)
  }

  /** A character other than a backslash or a newline extends the longest body after it */
  lemma PlainLongest(s: string, k: nat, j: nat)
    requires k < |s| && s[k] != '\n' && s[k] != '\\' && k + 1 <= j <= |s| && LongestBody(s, k + 1, j)
    ensures LongestBody(s, k, j)
  {
    forall b | k + 1 <= b <= |s| ensures CommentSpan(s, k, b) <==> CommentSpan(s, k + 1, b) {
      PieceBoundary(s, k, k + 1, b);
    }
  }

  /** A backslash run `s[k..r]` with the character or `\r\n` after it, up to
      `q`, extends the longest body after it */
  lemma RunLongest(s: string, k: nat, r: nat, q: nat, j: nat)
    requires k < r < |s| && (forall m | k <= m < r :: s[m] == '\\') && s[r] != '\\'
    requires q == if s[r] == '\r' && r + 1 < |s| && s[r + 1] == '\n' then r + 2 else r + 1
    requires q <= j <= |s| && LongestBody(s, q, j)
    ensures LongestBody(s, k, j)
  {
    forall m | k <= m < q && s[m] == '\n' ensures Escaped(s, k, m) { }
    assert CommentSpan(s, k, q);
    forall b | q <= b <= |s| ensures CommentSpan(s, k, b) <==> CommentSpan(s, q, b) {
      PieceBoundary(s, k, q, b);
    }
  }

  /** A backslash run that ends the text is a body when it has two or more backslashes */
  lemma RunEndLongest(s: string, k: nat, j: nat)
    requires k < |s| && (forall m | k <= m < |s| :: s[m] == '\\')
    requires j == if |s| - k >= 2 then |s| else k
    ensures LongestBody(s, k, j)
  {
    if |s| - k < 2 {
      forall b | j < b <= |s| ensures !CommentSpan(s, k, b) {
        assert b == k + 1;
      }
    }
  }

  /** LineCommentEnd takes the longest comment body: `s[k..j]` matches the
      regex of grammar.js:321, and no longer text from `k` does */
  lemma {:induction false} LineCommentLongest(s: string, k: nat)
    requires k <= |s|
    ensures LongestBody(s, k, LineCommentEnd(s, k))
    decreases |s| - k
  {
    if k == |s| || s[k] == '\n' {
      forall b | k < b <= |s| ensures !CommentSpan(s, k, b) {
        assert s[k] == '\n' && !Escaped(s, k, k);
      }
    } else if s[k] != '\\' {
      LineCommentLongest(s, k + 1);
      PlainLongest(s, k, LineCommentEnd(s, k + 1));
    } else {
      var r := SpanWhile(s, k, c => c == '\\');
      if r == |s| {
        RunEndLongest(s, k, LineCommentEnd(s, k));
      } else {
        var q := if s[r] == '\r' && r + 1 < |s| && s[r + 1] == '\n' then r + 2 else r + 1;
        LineCommentLongest(s, q);
        RunLongest(s, k, r, q, LineCommentEnd(s, q));
      }
    }
  }

  /** CommentSpan on a slice is IsLineCommentBody of the slice */
  lemma CommentSpanSlice(s: string, a: nat, b: nat)
    requires a <= b <= |s| && CommentSpan(s, a, b)
    ensures IsLineCommentBody(s[a..b])
  {
    var w := s[a..b];
    forall m | 0 <= m < |w| && w[m] == '\n' ensures Escaped(w, 0, m) {
      assert Escaped(s, a, a + m);
    }
  }

  /** The end of a block comment whose body starts at `k` (after the opening slash and star): just
      past the first `*` `/` pair; comments do not nest */
  function BlockCommentEnd(s: string, k: nat): (r: Option<nat>)
    requires k <= |s|
    ensures r.Some? ==> k + 2 <= r.value <= |s| && s[r.value - 2] == '*' && s[r.value - 1] == '/'
    ensures r.Some? ==> forall n :: k <= n < r.value - 2 ==> !(s[n] == '*' && s[n + 1] == '/')
    ensures r.None? ==> forall n :: k <= n < |s| - 1 ==> !(s[n] == '*' && s[n + 1] == '/')
    decreases |s| - k
  {
    if k + 1 >= |s| then None
    else if s[k] == '*' && s[k + 1] == '/' then Some(k + 2)
    else BlockCommentEnd(s, k + 1)
  }

  // ---------------------------------------------------------------------
  // punctuation

  predicate StartsWith(s: string, i: nat, w: string) {
    i + |w| <= |s| && s[i..i + |w|] == w
  }

  /** The two-character operators come first, so the first match is the longest */
  const Puncts: seq<Punct> := [
    ColonColon, DotStar, EqEq, NotEq, Le, Shl, Ge, Shr, AmpAmp, PipePipe,
    LBrace, RBrace, LParen, RParen, Semi, Colon, Comma, Dot, Eq, Bang, Lt, Gt,
    Plus, Minus, Star, Slash, Percent, Amp, Pipe, Caret]

  /** The index of the first of `cands[n..]` whose text starts at `i`, or `|cands|` */
  function FirstPunct(s: string, i: nat, cands: seq<Punct>, n: nat): (m: nat)
    requires n <= |cands|
    ensures n <= m <= |cands|
    ensures m < |cands| ==> StartsWith(s, i, PunctText(cands[m]))
    ensures forall m' :: n <= m' < m ==> !StartsWith(s, i, PunctText(cands[m']))
    decreases |cands| - n
  {
    if n == |cands| || StartsWith(s, i, PunctText(cands[n])) then n
    else FirstPunct(s, i, cands, n + 1)
  }

  /** Where each operator sits in `Puncts`: the two-character ones first */
  lemma PunctIndex(q: Punct) returns (n: nat)
    ensures n < |Puncts| && Puncts[n] == q
    ensures |PunctText(q)| == 2 <==> n < 10
  {
    match q
    case ColonColon => n := 0;   case DotStar => n := 1;   case EqEq => n := 2;
    case NotEq => n := 3;        case Le => n := 4;        case Shl => n := 5;
    case Ge => n := 6;           case Shr => n := 7;       case AmpAmp => n := 8;
    case PipePipe => n := 9;     case LBrace => n := 10;   case RBrace => n := 11;
    case LParen => n := 12;      case RParen => n := 13;   case Semi => n := 14;
    case Colon => n := 15;       case Comma => n := 16;    case Dot => n := 17;
    case Eq => n := 18;          case Bang => n := 19;     case Lt => n := 20;
    case Gt => n := 21;          case Plus => n := 22;     case Minus => n := 23;
    case Star => n := 24;        case Slash => n := 25;    case Percent => n := 26;
    case Amp => n := 27;         case Pipe => n := 28;     case Caret => n := 29;
  }

  /** The first match in `Puncts` is a longest one, and no match means no operator starts at `i` */
  lemma PunctLongest(s: string, i: nat, m: nat)
    requires m == FirstPunct(s, i, Puncts, 0)
    ensures m < |Puncts| ==> forall q :: StartsWith(s, i, PunctText(q)) ==> |PunctText(q)| <= |PunctText(Puncts[m])|
    ensures m == |Puncts| ==> forall q :: !StartsWith(s, i, PunctText(q))
  {
    hide StartsWith, FirstPunct;
    forall q | StartsWith(s, i, PunctText(q))
      ensures m < |Puncts| && |PunctText(q)| <= |PunctText(Puncts[m])|
    {
      var n := PunctIndex(q);
      if m < |Puncts| && |PunctText(Puncts[m])| == 1 {
        var n' := PunctIndex(Puncts[m]);
        assert m >= 10;
      }
    }
  }

  /** The longest operator or delimiter at `i` */
  function PunctAt(s: string, i: nat): (r: Option<Punct>)
    ensures r.Some? ==> StartsWith(s, i, PunctText(r.value))
    ensures r.Some? ==> forall q :: StartsWith(s, i, PunctText(q)) ==> |PunctText(q)| <= |PunctText(r.value)|
    ensures r.None? ==> forall q :: !StartsWith(s, i, PunctText(q))
  {
    var m := FirstPunct(s, i, Puncts, 0);
    PunctLongest(s, i, m);
    if m < |Puncts| then Some(Puncts[m]) else None
  }

  // ---------------------------------------------------------------------
  // The lexer

  /** What each kind of lexeme's text must look like */
  predicate WfLexeme(l: Lexeme) {
    match l.kind
    case Tok(Word(w)) => l.text == w && IsIdent(w)
    case Tok(Int(n)) => l.text == IntText(n) && WfIntLit(n)
    case Tok(Sym(p)) => l.text == PunctText(p)
    case Tok(Str(ps)) => |l.text| >= 2 && l.text[0] == '"' && BodyShape(l.text, 1, ps, |l.text|)
    case Skip(Whitespace) => |l.text| > 0 && AllSpace(l.text)
    case Skip(LineComment) => |l.text| >= 2 && l.text[..2] == "//" && IsLineCommentBody(l.text[2..])
    case Skip(BlockComment) =>
      && |l.text| >= 4 && l.text[..2] == "/*" && l.text[|l.text| - 2..] == "*/"
      && forall n | 2 <= n < |l.text| - 2 :: !(l.text[n] == '*' && l.text[n + 1] == '/')
  }

  /** A lexeme found at `i` of `s`, ending at `j` */
  predicate LexemeOk(s: string, i: nat, l: Lexeme, j: nat) {
    i < j <= |s| && l.text == s[i..j] && WfLexeme(l)
  }

  lemma BodyShapeShift(s: string, i: nat, ps: seq<StrPiece>, j: nat)
    requires i < j <= |s| && BodyShape(s, i + 1, ps, j)
    ensures BodyShape(s[i..j], 1, ps, j - i)
  {
    var t := s[i..j];
    var n := |PiecesText(ps)|;
    assert i + 1 + n < j;
    SliceOfSlice(s, i, j, 1, 1 + n);
    SliceOfSlice(s, i, j, 1 + n, j - i - 1);
    assert t[1..1 + n] == s[i + 1..i + 1 + n];
    assert t[1 + n..j - i - 1] == s[i + 1 + n..j - 1];
    assert t[1 + n] == s[i + 1 + n];
    assert t[j - i - 1] == s[j - 1];
  }

  function StrLexemeAt(s: string, i: nat): (r: Option<(Lexeme, nat)>)
    requires i < |s| && s[i] == '"'
    ensures r.Some? ==> LexemeOk(s, i, r.value.0, r.value.1)
  {
    var b := StrBody(s, i + 1);
    if b.None? then None
    else
      var (ps, j) := b.value;
      BodyShapeShift(s, i, ps, j);
      Some((Lexeme(Tok(Str(ps)), s[i..j]), j))
  }

  function CommentLexemeAt(s: string, i: nat): (r: Option<(Lexeme, nat)>)
    requires i + 1 < |s| && s[i] == '/'
    ensures r.Some? ==> LexemeOk(s, i, r.value.0, r.value.1)
  {
    if s[i + 1] == '/' then
      var j := LineCommentEnd(s, i + 2);
      LineCommentLongest(s, i + 2);
      assert CommentSpan(s, i + 2, j);
      CommentSpanSlice(s, i + 2, j);
      assert s[i..j][2..] == s[i + 2..j];
      Some((Lexeme(Skip(LineComment), s[i..j]), j))
    else if s[i + 1] == '*' && BlockCommentEnd(s, i + 2).Some? then
      var j := BlockCommentEnd(s, i + 2).value;
      var t := s[i..j];
      assert forall n | 2 <= n < |t| :: t[n] == s[i + n];
      Some((Lexeme(Skip(BlockComment), t), j))
    else None
  }

  function PunctLexemeAt(s: string, i: nat): (r: Option<(Lexeme, nat)>)
    requires i < |s|
    ensures r.Some? ==> LexemeOk(s, i, r.value.0, r.value.1)
  {
    var p := PunctAt(s, i);
    if p.None? then None
    else
      var w := PunctText(p.value);
      var l := Lexeme(Tok(Sym(p.value)), w);
      assert WfLexeme(l);
      Some((l, i + |w|))
  }

  /** One lexeme at `i`, or None when no token rule matches there. A comment opener
      that is never closed is not a comment: the longest token there is `/`. */
  function LexemeAt(s: string, i: nat): (r: Option<(Lexeme, nat)>)
    requires i < |s|
    ensures r.Some? ==> LexemeOk(s, i, r.value.0, r.value.1)
  {
    var c := s[i];
    if IsSpace(c) then
      var j := SpanWhile(s, i, IsSpace);
      Some((Lexeme(Skip(Whitespace), s[i..j]), j))
    else if c == '/' && i + 1 < |s| && CommentLexemeAt(s, i).Some? then
      CommentLexemeAt(s, i)
    else if IsIdentStart(c) then
      var j := WordAt(s, i);
      Some((Lexeme(Tok(Word(s[i..j])), s[i..j]), j))
    else if IsDigit(c) then
      var (n, j) := IntAt(s, i);
      Some((Lexeme(Tok(Int(n)), s[i..j]), j))
    else if c == '"' then
      StrLexemeAt(s, i)
    else
      PunctLexemeAt(s, i)
  }

  predicate AllWf(ls: seq<Lexeme>) {
    ls == [] || (WfLexeme(ls[0]) && AllWf(ls[1..]))
  }

  lemma Prepend(l: Lexeme, rest: seq<Lexeme>)
    ensures Texts([l] + rest) == l.text + Texts(rest)
    ensures AllWf([l] + rest) == (WfLexeme(l) && AllWf(rest))
  {
    assert ([l] + rest)[1..] == rest;
  }

  datatype LexResult = Lexed(lexemes: seq<Lexeme>) | LexError(at: nat)

  /** The whole text from `i`, lexeme by lexeme; an unlexable position is an error */
  function LexFrom(s: string, i: nat): (r: LexResult)
    requires i <= |s|
    ensures r.Lexed? ==> Texts(r.lexemes) == s[i..] && AllWf(r.lexemes)
    ensures r.LexError? ==> i <= r.at < |s|
    decreases |s| - i
  {
    if i == |s| then Lexed([])
    else
      match LexemeAt(s, i)
      case None => LexError(i)
      case Some((l, j)) =>
        match LexFrom(s, j)
        case LexError(at) => LexError(at)
        case Lexed(rest) =>
          assert s[i..] == s[i..j] + s[j..];
          Prepend(l, rest);
          Lexed([l] + rest)
  }

  /** The lexer over a whole source text: lossless by construction */
  function Lex(s: string): (r: LexResult)
    ensures r.Lexed? ==> Texts(r.lexemes) == s && AllWf(r.lexemes)
  {
    LexFrom(s, 0)
  }
}

/**
 The SQL lexer (internal/parser/sql/lexer.go): a cursor over the bytes of a migration
 file. Its tokens and the whitespace and comments between them tile the source, in
 the only way the source can be tiled.
 */
module Lexing {
  import opened Wrappers

  newtype byte = b: int | 0 <= b < 256

  const NUL: byte := 0
  const TAB: byte := 9
  const NEWLINE: byte := 10
  const RETURN: byte := 13
  const SPACE: byte := 32
  const DOUBLE_QUOTE: byte := 34
  const DOLLAR: byte := 36
  const QUOTE: byte := 39
  const STAR: byte := 42
  const DASH: byte := 45
  const DOT: byte := 46
  const SLASH: byte := 47
  const SEMICOLON: byte := 59
  const UNDERSCORE: byte := 95

  /** The bytes of : = < > ! ~ + - * / % ^ & | @ [ ] */
  const OP_SYMBOLS: seq<byte> := [58, 61, 60, 62, 33, 126, 43, 45, 42, 47, 37, 94, 38, 124, 64, 91, 93]

  /** The bytes of ( ) , ; . */
  const PUNCTUATION: seq<byte> := [40, 41, 44, 59, 46]

  datatype TokenKind = TokEOF | TokIdent | TokQuotedIdent | TokString | TokNumber | TokPunct | TokOp

  datatype Token = Token(kind: TokenKind, text: seq<byte>, raw: seq<byte>, line: nat, start: nat, end: nat)

  datatype Fault = UnterminatedComment | UnterminatedString | UnterminatedIdent | UnexpectedCharacter

  datatype LexError = LexError(line: nat, fault: Fault)

  predicate IsSpace(b: byte) {
    b == SPACE || b == TAB || b == RETURN || b == NEWLINE
  }

  predicate IsDigit(b: byte) {
    48 <= b <= 57
  }

  predicate IsIdentStart(b: byte) {
    b == UNDERSCORE || 97 <= b <= 122 || 65 <= b <= 90
  }

  predicate IsIdentCont(b: byte) {
    IsIdentStart(b) || IsDigit(b) || b == DOLLAR
  }

  predicate OpSymbol(b: byte) {
    b in OP_SYMBOLS
  }

  const LOWER := "abcdefghijklmnopqrstuvwxyz"
  const UPPER := "ABCDEFGHIJKLMNOPQRSTUVWXYZ"

  lemma LowerIsClass(c: char)
    ensures c in LOWER <==> 'a' <= c <= 'z'
  {
    if 'a' <= c <= 'z' {
      assert LOWER[c as int - 'a' as int] == c;
    }
  }

  lemma UpperIsClass(c: char)
    ensures c in UPPER <==> 'A' <= c <= 'Z'
  {
    if 'A' <= c <= 'Z' {
      assert UPPER[c as int - 'A' as int] == c;
    }
  }

  /** The byte classes as the characters they are. */
  lemma ClassesAsText(b: byte)
    ensures var c := b as int as char;
            && (IsSpace(b) <==> c in " \t\r\n")
            && (IsDigit(b) <==> c in "0123456789")
            && (IsIdentStart(b) <==> c == '_' || c in LOWER || c in UPPER)
            && (IsIdentCont(b) <==> c in "_$0123456789" || c in LOWER || c in UPPER)
            && (OpSymbol(b) <==> c in ":=<>!~+-*/%^&|@[]")
            && (b in PUNCTUATION <==> c in "(),;.")
            && (b == QUOTE <==> c == '\'') && (b == DOUBLE_QUOTE <==> c == '\"')
            && (b == NEWLINE <==> c == '\n') && (b == SEMICOLON <==> c == ';') && (b == DOT <==> c == '.')
            && (b == DASH <==> c == '-') && (b == SLASH <==> c == '/') && (b == STAR <==> c == '*')
            && (b == NUL <==> c == '\0')
  {
    LowerIsClass(b as int as char);
    UpperIsClass(b as int as char);
  }

  /** What begins with a byte is decided by the byte: no class of first bytes meets another. */
  lemma ClassesApart(b: byte)
    ensures !(IsSpace(b) && (IsIdentStart(b) || IsDigit(b) || b in PUNCTUATION || OpSymbol(b) || b == QUOTE || b == DOUBLE_QUOTE))
    ensures !(IsIdentStart(b) && (IsDigit(b) || b in PUNCTUATION || OpSymbol(b) || b == QUOTE || b == DOUBLE_QUOTE))
    ensures !(IsDigit(b) && (b in PUNCTUATION || OpSymbol(b) || b == QUOTE || b == DOUBLE_QUOTE))
    ensures !(b in PUNCTUATION && (OpSymbol(b) || b == QUOTE || b == DOUBLE_QUOTE))
    ensures !(OpSymbol(b) && (b == QUOTE || b == DOUBLE_QUOTE))
  {
  }

  // ---- lines ----

  function Newlines(s: seq<byte>): nat {
    if s == [] then 0 else Newlines(s[..|s| - 1]) + (if s[|s| - 1] == NEWLINE then 1 else 0)
  }

  /** The line a position is on: one plus the newlines before it. */
  function LineAt(src: seq<byte>, pos: nat): nat
    requires pos <= |src|
  {
    1 + Newlines(src[..pos])
  }

  // ---- whitespace and comments ----

  ghost predicate PairAt(src: seq<byte>, i: nat, first: byte, second: byte) {
    i + 1 < |src| && src[i] == first && src[i + 1] == second
  }

  /** From the two dashes to the end of the line. */
  ghost predicate IsLineComment(src: seq<byte>, a: nat, b: nat) {
    && a + 2 <= b <= |src| && PairAt(src, a, DASH, DASH)
    && (forall i :: a <= i < b ==> src[i] != NEWLINE && src[i] != NUL)
    && (b == |src| || src[b] == NEWLINE || src[b] == NUL)
  }

  /** From the opening to the first closing mark after it. */
  ghost predicate IsBlockComment(src: seq<byte>, a: nat, b: nat) {
    && a + 4 <= b <= |src| && PairAt(src, a, SLASH, STAR)
    && PairAt(src, b - 2, STAR, SLASH)
    && forall i :: a + 2 <= i < b - 2 ==> !PairAt(src, i, STAR, SLASH)
  }

  ghost predicate IsPiece(src: seq<byte>, a: nat, b: nat) {
    || (a < |src| && b == a + 1 && IsSpace(src[a]))
    || IsLineComment(src, a, b)
    || IsBlockComment(src, a, b)
  }

  /** src[a..b] is nothing but whitespace and comments. */
  ghost predicate Trivia(src: seq<byte>, a: nat, b: nat)
    decreases b - a
  {
    a == b || exists m: nat :: a < m <= b && IsPiece(src, a, m) && Trivia(src, m, b)
  }

  ghost predicate StartsTrivia(src: seq<byte>, a: nat) {
    || (a < |src| && IsSpace(src[a]))
    || PairAt(src, a, DASH, DASH)
    || PairAt(src, a, SLASH, STAR)
  }

  lemma {:induction false} TriviaSnoc(src: seq<byte>, a: nat, m: nat, b: nat)
    requires a <= m <= b && Trivia(src, a, m) && IsPiece(src, m, b)
    ensures Trivia(src, a, b)
    decreases m - a
  {
    hide IsPiece;
    PieceAdvances(src, m, b);
    if a == m {
      assert Trivia(src, b, b);
    } else {
      var k: nat :| a < k <= m && IsPiece(src, a, k) && Trivia(src, k, m);
      TriviaSnoc(src, k, m, b);
    }
  }

  lemma PieceAdvances(src: seq<byte>, a: nat, b: nat)
    requires IsPiece(src, a, b)
    ensures a < b <= |src| && StartsTrivia(src, a)
  {
  }

  lemma PieceUnique(src: seq<byte>, a: nat, b: nat, c: nat)
    requires IsPiece(src, a, b) && IsPiece(src, a, c)
    ensures b == c
  {
    if IsLineComment(src, a, b) {
      assert IsLineComment(src, a, c);
    } else if IsBlockComment(src, a, b) {
      assert IsBlockComment(src, a, c);
      assert !(b < c) && !(c < b);
    }
  }

  /** Skipping as much as possible ends in one place. */
  lemma {:induction false} TriviaUnique(src: seq<byte>, a: nat, b: nat, c: nat)
    requires a <= b && a <= c && Trivia(src, a, b) && Trivia(src, a, c)
    requires !StartsTrivia(src, b) && !StartsTrivia(src, c)
    ensures b == c
    decreases b - a
  {
    hide IsPiece, StartsTrivia;
    if a < b && a < c {
      var m: nat :| a < m <= b && IsPiece(src, a, m) && Trivia(src, m, b);
      var k: nat :| a < k <= c && IsPiece(src, a, k) && Trivia(src, k, c);
      PieceUnique(src, a, m, k);
      TriviaUnique(src, m, b, c);
    } else if a < b {
      var m: nat :| a < m <= b && IsPiece(src, a, m) && Trivia(src, m, b);
      PieceAdvances(src, a, m);
    } else if a < c {
      var k: nat :| a < k <= c && IsPiece(src, a, k) && Trivia(src, k, c);
      PieceAdvances(src, a, k);
    }
  }

  // ---- tokens ----

  /** src[a..e] is the longest run of bytes of a class from a on. */
  ghost predicate IsRun(src: seq<byte>, a: nat, e: nat, inClass: byte -> bool) {
    && a <= e <= |src|
    && (forall i :: a <= i < e ==> inClass(src[i]))
    && (e == |src| || !inClass(src[e]))
  }

  /** Doubles every quote q. */
  function Escape(text: seq<byte>, q: byte): seq<byte> {
    if text == [] then [] else (if text[0] == q then [q, q] else [text[0]]) + Escape(text[1..], q)
  }

  /** src[a..e] is text, escaped, and then a closing quote that is not itself doubled. */
  ghost predicate IsQuotedRest(src: seq<byte>, a: nat, e: nat, q: byte, text: seq<byte>) {
    && a < e <= |src|
    && src[a..e] == Escape(text, q) + [q]
    && (e == |src| || src[e] != q)
  }

  /** Digits from a to m, and on to e if a point and another digit follow. */
  ghost predicate IsNumberVia(src: seq<byte>, a: nat, m: nat, e: nat) {
    && IsRun(src, a, m, IsDigit)
    && if m + 1 < |src| && src[m] == DOT && IsDigit(src[m + 1]) then IsRun(src, m + 1, e, IsDigit) else e == m
  }

  ghost predicate IsNumber(src: seq<byte>, a: nat, e: nat) {
    exists m: nat :: IsNumberVia(src, a, m, e)
  }

  /** A token other than EOF, as its kind demands; the first byte decides the kind. */
  ghost predicate IsToken(src: seq<byte>, t: Token)
    requires t.start <= t.end <= |src|
  {
    && t.start < t.end && t.raw == src[t.start..t.end]
    && var b := src[t.start];
       match t.kind
       case TokEOF => false
       case TokIdent => IsIdentStart(b) && IsRun(src, t.start, t.end, IsIdentCont) && t.text == t.raw
       case TokNumber => IsDigit(b) && IsNumber(src, t.start, t.end) && t.text == t.raw
       case TokString => b == QUOTE && IsQuotedRest(src, t.start + 1, t.end, QUOTE, t.text)
       case TokQuotedIdent => b == DOUBLE_QUOTE && IsQuotedRest(src, t.start + 1, t.end, DOUBLE_QUOTE, t.text)
       case TokPunct => b in PUNCTUATION && t.end == t.start + 1 && t.text == t.raw
       case TokOp => OpSymbol(b) && IsRun(src, t.start, t.end, OpSymbol) && t.text == t.raw
  }

  /** t is the token that comes next at from: after all the whitespace and comments there. */
  ghost predicate Follows(src: seq<byte>, from: nat, t: Token) {
    && from <= t.start <= t.end <= |src|
    && Trivia(src, from, t.start) && !StartsTrivia(src, t.start)
    && t.line == LineAt(src, t.start)
    && if t.kind == TokEOF then
         t.start == |src| && t.text == [] && t.raw == []
       else
         IsToken(src, t)
  }

  /** Every byte from a on is part of a quoted text that never closes. */
  ghost predicate IsUnclosed(src: seq<byte>, a: nat, q: byte) {
    a <= |src| && exists text :: src[a..] == Escape(text, q)
  }

  ghost predicate IsFault(src: seq<byte>, at: nat, fault: Fault)
    requires at < |src|
  {
    match fault
    case UnterminatedComment =>
      PairAt(src, at, SLASH, STAR) && forall i :: at + 2 <= i ==> !PairAt(src, i, STAR, SLASH)
    case UnterminatedString => src[at] == QUOTE && IsUnclosed(src, at + 1, QUOTE)
    case UnterminatedIdent => src[at] == DOUBLE_QUOTE && IsUnclosed(src, at + 1, DOUBLE_QUOTE)
    case UnexpectedCharacter =>
      && !StartsTrivia(src, at)
      && !IsIdentStart(src[at]) && !IsDigit(src[at]) && src[at] != QUOTE && src[at] != DOUBLE_QUOTE
      && src[at] !in PUNCTUATION && !OpSymbol(src[at])
  }

  /** The text that comes next at from, after whitespace and comments, is malformed as e says. */
  ghost predicate FaultAfter(src: seq<byte>, from: nat, at: nat, e: LexError) {
    from <= at < |src| && Trivia(src, from, at) && IsFault(src, at, e.fault) && e.line == LineAt(src, at)
  }

  ghost predicate Malformed(src: seq<byte>, from: nat, e: LexError) {
    exists at: nat :: FaultAfter(src, from, at, e)
  }

  // ---- the lexer object ----

  lemma LineStep(src: seq<byte>, pos: nat)
    requires pos < |src|
    ensures LineAt(src, pos + 1) == LineAt(src, pos) + (if src[pos] == NEWLINE then 1 else 0)
  {
    assert src[..pos + 1][..pos] == src[..pos];
  }

  lemma {:induction false} EscapeSnoc(text: seq<byte>, b: byte, q: byte)
    ensures Escape(text + [b], q) == Escape(text, q) + (if b == q then [q, q] else [b])
    decreases |text|
  {
    if text == [] {
      assert [] + [b] == [b] && [b][1..] == [];
    } else {
      var head := if text[0] == q then [q, q] else [text[0]];
      var last := if b == q then [q, q] else [b];
      assert (text + [b])[0] == text[0] && (text + [b])[1..] == text[1..] + [b];
      EscapeSnoc(text[1..], b, q);
      Associative(head, Escape(text[1..], q), last);
    }
  }

  lemma Associative(a: seq<byte>, b: seq<byte>, c: seq<byte>)
    ensures (a + b) + c == a + (b + c)
  {
  }

  class Lexer {
    const src: seq<byte>
    var pos: nat
    var line: nat

    constructor (src: seq<byte>)
      ensures Valid() && this.src == src && pos == 0
    {
      this.src := src;
      pos, line := 0, 1;
    }

    ghost predicate Valid()
      reads this
    {
      pos <= |src| && line == LineAt(src, pos)
    }

    function PeekByte(): byte
      reads this
    {
      if pos >= |src| then NUL else src[pos]
    }

    function PeekByteAt(off: nat): byte
      reads this
    {
      if pos + off >= |src| then NUL else src[pos + off]
    }

    method Advance() returns (b: byte)
      requires Valid() && pos < |src|
      modifies this
      ensures Valid() && pos == old(pos) + 1 && b == src[old(pos)]
    {
      LineStep(src, pos);
      b := src[pos];
      pos := pos + 1;
      if b == NEWLINE {
        line := line + 1;
      }
    }

    method SkipLineComment()
      requires Valid() && PairAt(src, pos, DASH, DASH)
      modifies this
      ensures Valid() && IsLineComment(src, old(pos), pos)
    {
      while PeekByte() != NEWLINE && PeekByte() != NUL
        invariant Valid() && old(pos) <= pos
        invariant forall i :: old(pos) <= i < pos ==> src[i] != NEWLINE && src[i] != NUL
        decreases |src| - pos
      {
        var _ := Advance();
      }
    }

    method SkipBlockComment() returns (closed: bool)
      requires Valid() && PairAt(src, pos, SLASH, STAR)
      modifies this
      ensures Valid() && old(pos) < pos
      ensures closed ==> IsBlockComment(src, old(pos), pos)
      ensures !closed ==> forall i :: old(pos) + 2 <= i ==> !PairAt(src, i, STAR, SLASH)
    {
      var _ := Advance();
      var _ := Advance();
      while pos < |src|
        invariant Valid() && old(pos) + 2 <= pos
        invariant forall i :: old(pos) + 2 <= i < pos ==> !PairAt(src, i, STAR, SLASH)
        decreases |src| - pos
      {
        if PeekByte() == STAR && PeekByteAt(1) == SLASH {
          var _ := Advance();
          var _ := Advance();
          return true;
        }
        var _ := Advance();
      }
      return false;
    }

    method SkipWhitespaceAndComments() returns (err: Option<LexError>)
      requires Valid()
      modifies this
      ensures Valid() && old(pos) <= pos
      ensures err.None? ==> Trivia(src, old(pos), pos) && !StartsTrivia(src, pos)
      ensures err.Some? ==> Malformed(src, old(pos), err.value)
    {
      hide IsLineComment, IsBlockComment;
      while true
        invariant Valid() && old(pos) <= pos && Trivia(src, old(pos), pos)
        decreases |src| - pos
      {
        var b, at := PeekByte(), pos;
        if b == SPACE || b == TAB || b == RETURN || b == NEWLINE {
          var _ := Advance();
          TriviaSnoc(src, old(pos), at, pos);
        } else if b == DASH && PeekByteAt(1) == DASH {
          SkipLineComment();
          PieceAdvances(src, at, pos);
          TriviaSnoc(src, old(pos), at, pos);
        } else if b == SLASH && PeekByteAt(1) == STAR {
          var startLine := line;
          var closed := SkipBlockComment();
          if !closed {
            assert FaultAfter(src, old(pos), at, LexError(startLine, UnterminatedComment));
            return Some(LexError(startLine, UnterminatedComment));
          }
          TriviaSnoc(src, old(pos), at, pos);
        } else {
          return None;
        }
      }
    }

    method SkipWhile(inClass: byte -> bool)
      requires Valid() && !inClass(NUL)
      modifies this
      ensures Valid() && IsRun(src, old(pos), pos, inClass)
    {
      while inClass(PeekByte())
        invariant Valid() && old(pos) <= pos
        invariant forall i :: old(pos) <= i < pos ==> inClass(src[i])
        decreases |src| - pos
      {
        var _ := Advance();
      }
    }

    method SkipNumber()
      requires Valid() && IsDigit(PeekByte())
      modifies this
      ensures Valid() && old(pos) < pos && IsNumber(src, old(pos), pos)
    {
      SkipWhile(IsDigit);
      ghost var m := pos;
      if PeekByte() == DOT && IsDigit(PeekByteAt(1)) {
        var _ := Advance();
        SkipWhile(IsDigit);
      }
      assert IsNumberVia(src, old(pos), m, pos);
    }

    /** The scan after an opening quote, shared by string literals and quoted identifiers. */
    method ScanQuoted(q: byte) returns (text: Option<seq<byte>>)
      requires Valid() && q != NUL && q != NEWLINE
      modifies this
      ensures Valid() && old(pos) <= pos
      ensures text.Some? ==> IsQuotedRest(src, old(pos), pos, q, text.value)
      ensures text.None? ==> IsUnclosed(src, old(pos), q)
    {
      var sb: seq<byte> := [];
      while true
        invariant Valid() && old(pos) <= pos
        invariant src[old(pos)..pos] == Escape(sb, q)
        decreases |src| - pos
      {
        if pos >= |src| {
          assert src[old(pos)..] == Escape(sb, q);
          return None;
        }
        EscapeSnoc(sb, src[pos], q);
        if PeekByte() == q {
          if PeekByteAt(1) == q {
            sb := sb + [q];
            var _ := Advance();
            var _ := Advance();
          } else {
            var _ := Advance();
            return Some(sb);
          }
        } else {
          var b := Advance();
          sb := sb + [b];
        }
      }
    }

    method LexQuoted(q: byte, kind: TokenKind, fault: Fault, startLine: nat, start: nat) returns (r: Result<Token, LexError>)
      requires Valid() && pos == start < |src| && src[start] == q && startLine == line && !StartsTrivia(src, start)
      requires (q == QUOTE && kind == TokString && fault == UnterminatedString)
               || (q == DOUBLE_QUOTE && kind == TokQuotedIdent && fault == UnterminatedIdent)
      modifies this
      ensures Valid() && old(pos) < pos
      ensures r.Ok? ==> pos == r.value.end && r.value.start == start && Follows(src, start, r.value)
      ensures r.Err? ==> FaultAfter(src, start, start, r.error)
    {
      hide IsQuotedRest, IsUnclosed, LineAt;
      var _ := Advance();
      var text := ScanQuoted(q);
      if text.None? {
        return Err(LexError(startLine, fault));
      }
      return Ok(Token(kind, text.value, src[start..pos], startLine, start, pos));
    }

    method Next() returns (r: Result<Token, LexError>)
      requires Valid()
      modifies this
      ensures Valid() && old(pos) <= pos
      ensures r.Ok? ==> pos == r.value.end && Follows(src, old(pos), r.value)
      ensures r.Ok? && r.value.kind != TokEOF ==> old(pos) < pos
      ensures r.Err? ==> Malformed(src, old(pos), r.error)
    {
      hide Trivia, IsNumber, LineAt;
      var err := SkipWhitespaceAndComments();
      if err.Some? {
        return Err(err.value);
      }
      var startLine, start := line, pos;
      if pos >= |src| {
        return Ok(Token(TokEOF, [], [], startLine, start, start));
      }
      var b := PeekByte();
      var kind: TokenKind;
      if IsIdentStart(b) {
        SkipWhile(IsIdentCont);
        kind := TokIdent;
      } else if IsDigit(b) {
        SkipNumber();
        kind := TokNumber;
      } else if b == QUOTE {
        r := LexQuoted(QUOTE, TokString, UnterminatedString, startLine, start);
        FromHere(src, old(pos), start, r);
        return;
      } else if b == DOUBLE_QUOTE {
        r := LexQuoted(DOUBLE_QUOTE, TokQuotedIdent, UnterminatedIdent, startLine, start);
        FromHere(src, old(pos), start, r);
        return;
      } else if b in PUNCTUATION {
        var _ := Advance();
        kind := TokPunct;
      } else if OpSymbol(b) {
        SkipWhile(OpSymbol);
        kind := TokOp;
      } else {
        var _ := Advance();
        assert FaultAfter(src, old(pos), start, LexError(startLine, UnexpectedCharacter));
        return Err(LexError(startLine, UnexpectedCharacter));
      }
      var text := src[start..pos];
      return Ok(Token(kind, text, text, startLine, start, pos));
    }
  }

  lemma FromHere(src: seq<byte>, from: nat, start: nat, r: Result<Token, LexError>)
    requires from <= start <= |src| && Trivia(src, from, start)
    requires r.Ok? ==> Follows(src, start, r.value) && r.value.start == start
    requires r.Err? ==> FaultAfter(src, start, start, r.error)
    ensures r.Ok? ==> Follows(src, from, r.value)
    ensures r.Err? ==> Malformed(src, from, r.error)
  {
    hide IsToken, IsFault, Trivia;
    if r.Err? {
      assert FaultAfter(src, from, start, r.error);
    }
  }
}

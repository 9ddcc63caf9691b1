/**
 What lexing a whole file gives (internal/parser/sql/lexer.go, lex): the one way of
 tiling its bytes with tokens, whitespace and comments. And how the tokens are cut
 into statements (internal/parser/sql/parser.go, splitStatements).
 */
module Tiling {
  import opened Wrappers
  import opened Lexing

  /** Where the search for token i starts: at the end of the one before. */
  function EndBefore(toks: seq<Token>, i: nat): nat
    requires i <= |toks|
  {
    if i == 0 then 0 else toks[i - 1].end
  }

  /** Each token is the one that follows the one before it, and none is EOF. */
  ghost predicate IsPrefix(src: seq<byte>, toks: seq<Token>) {
    forall i {:trigger EndBefore(toks, i)} :: 0 <= i < |toks| ==> toks[i].kind != TokEOF && Follows(src, EndBefore(toks, i), toks[i])
  }

  /** Tokens that account for the whole source, up to one EOF. */
  ghost predicate IsTiling(src: seq<byte>, toks: seq<Token>) {
    && toks != [] && toks[|toks| - 1].kind == TokEOF
    && IsPrefix(src, toks[..|toks| - 1])
    && Follows(src, EndBefore(toks, |toks| - 1), toks[|toks| - 1])
  }

  /** The source is well formed up to the given tokens and malformed right after. */
  ghost predicate BreaksAfter(src: seq<byte>, toks: seq<Token>, e: LexError) {
    IsPrefix(src, toks) && Malformed(src, EndBefore(toks, |toks|), e)
  }

  lemma PrefixSnoc(src: seq<byte>, toks: seq<Token>, t: Token)
    requires IsPrefix(src, toks) && t.kind != TokEOF && Follows(src, EndBefore(toks, |toks|), t)
    ensures IsPrefix(src, toks + [t])
  {
    hide Follows;
    var all := toks + [t];
    assert forall i :: 0 <= i < |toks| ==> all[i] == toks[i] && EndBefore(all, i) == EndBefore(toks, i);
  }

  // ---- what a tiling says ----

  lemma TokenOfTiling(src: seq<byte>, toks: seq<Token>, i: nat)
    requires IsTiling(src, toks) && i < |toks|
    ensures Follows(src, EndBefore(toks, i), toks[i])
    ensures toks[i].kind == TokEOF <==> i == |toks| - 1
  {
    hide Follows;
    if i < |toks| - 1 {
      var init := toks[..|toks| - 1];
      assert init[i] == toks[i] && EndBefore(init, i) == EndBefore(toks, i);
    }
  }

  /**
   Spans are disjoint and increasing, raw text is its source span, the text between
   spans is whitespace and comments, each line number counts the newlines before the
   token, and the list ends in the one EOF at the end of the source.
   */
  lemma TilingCovers(src: seq<byte>, toks: seq<Token>)
    requires IsTiling(src, toks)
    ensures forall i :: 0 <= i < |toks| ==>
      var t := toks[i];
      && EndBefore(toks, i) <= t.start <= t.end <= |src|
      && (t.start < t.end <==> t.kind != TokEOF)
      && t.raw == src[t.start..t.end]
      && Trivia(src, EndBefore(toks, i), t.start)
      && t.line == LineAt(src, t.start)
    ensures forall i :: 0 <= i < |toks| ==> (toks[i].kind == TokEOF <==> i == |toks| - 1)
    ensures toks[|toks| - 1].start == |src|
  {
    hide Trivia, LineAt, IsTiling, Follows, EndBefore;
    TilingNonEmpty(src, toks);
    forall i | 0 <= i < |toks|
      ensures Follows(src, EndBefore(toks, i), toks[i]) && (toks[i].kind == TokEOF <==> i == |toks| - 1)
    {
      TokenOfTiling(src, toks, i);
    }
    forall i | 0 <= i < |toks| {
      FollowsCovers(src, EndBefore(toks, i), toks[i]);
    }
  }

  lemma FollowsCovers(src: seq<byte>, from: nat, t: Token)
    ensures Follows(src, from, t) ==>
      && from <= t.start <= t.end <= |src|
      && (t.start < t.end <==> t.kind != TokEOF)
      && t.raw == src[t.start..t.end]
      && Trivia(src, from, t.start) && t.line == LineAt(src, t.start)
      && (t.kind == TokEOF ==> t.start == |src|)
  {
  }

  lemma TilingNonEmpty(src: seq<byte>, toks: seq<Token>)
    requires IsTiling(src, toks)
    ensures toks != []
  {
  }

  /** The unescaped text of a quoted token gives its raw text back: quoted, with every quote doubled. */
  lemma QuotedRoundTrip(src: seq<byte>, toks: seq<Token>, i: nat)
    requires IsTiling(src, toks) && i < |toks|
    ensures toks[i].kind == TokString ==> toks[i].raw == [QUOTE] + Escape(toks[i].text, QUOTE) + [QUOTE]
    ensures toks[i].kind == TokQuotedIdent ==>
      toks[i].raw == [DOUBLE_QUOTE] + Escape(toks[i].text, DOUBLE_QUOTE) + [DOUBLE_QUOTE]
    ensures toks[i].kind != TokString && toks[i].kind != TokQuotedIdent ==> toks[i].text == toks[i].raw
  {
    hide Trivia, Escape, LineAt, IsTiling, EndBefore;
    TokenOfTiling(src, toks, i);
    var t := toks[i];
    assert t.raw == src[t.start..t.end];
    if t.start < t.end {
      assert t.raw == [src[t.start]] + src[t.start + 1..t.end];
    }
  }

  // ---- uniqueness ----

  lemma RunUnique(src: seq<byte>, a: nat, b: nat, c: nat, inClass: byte -> bool)
    requires IsRun(src, a, b, inClass) && IsRun(src, a, c, inClass)
    ensures b == c
  {
    assert !(b < c) && !(c < b);
  }

  lemma NumberUnique(src: seq<byte>, a: nat, b: nat, c: nat)
    requires IsNumber(src, a, b) && IsNumber(src, a, c)
    ensures b == c
  {
    hide IsRun;
    var m: nat :| IsNumberVia(src, a, m, b);
    var k: nat :| IsNumberVia(src, a, k, c);
    RunUnique(src, a, m, k, IsDigit);
    if b != m || c != k {
      RunUnique(src, m + 1, b, c, IsDigit);
    }
  }

  /** The text before the rest of the source starts with c, escaped, when it is not empty. */
  lemma EscapeHead(src: seq<byte>, a: nat, e: nat, text: seq<byte>, q: byte, rest: seq<byte>)
    requires a <= e <= |src| && text != [] && src[a..e] == Escape(text, q) + rest
    ensures a < e && src[a] == text[0]
    ensures text[0] == q ==> a + 2 <= e && src[a + 1] == q && src[a + 2..e] == Escape(text[1..], q) + rest
    ensures text[0] != q ==> src[a + 1..e] == Escape(text[1..], q) + rest
  {
    hide Escape;
    var head := if text[0] == q then [q, q] else [text[0]];
    EscapeCons(text, q);
    Associative(head, Escape(text[1..], q), rest);
    SliceHead(src, a, e, head, Escape(text[1..], q) + rest);
    assert src[a + 0] == head[0];
    if text[0] == q {
      assert src[a + 1] == head[1];
    }
  }

  lemma EscapeCons(text: seq<byte>, q: byte)
    requires text != []
    ensures Escape(text, q) == (if text[0] == q then [q, q] else [text[0]]) + Escape(text[1..], q)
  {
  }

  lemma SliceHead(src: seq<byte>, a: nat, e: nat, head: seq<byte>, tail: seq<byte>)
    requires a <= e <= |src| && src[a..e] == head + tail
    ensures a + |head| <= e && src[a + |head|..e] == tail
    ensures forall i {:trigger head[i]} :: 0 <= i < |head| ==> src[a + i] == head[i]
  {
    var s := src[a..e];
    assert forall i :: 0 <= i < |head| ==> s[i] == head[i] && s[i] == src[a + i];
    assert s[|head|..] == tail && s[|head|..] == src[a + |head|..e];
  }

  lemma ClosesHere(src: seq<byte>, a: nat, e: nat, q: byte)
    requires IsQuotedRest(src, a, e, q, [])
    ensures e == a + 1 && src[a] == q && (e == |src| || src[e] != q)
  {
    assert src[a..e][0] == src[a];
  }

  /** A quoted text and its end are determined by where it starts. */
  lemma {:induction false} QuotedUnique(src: seq<byte>, a: nat, e: nat, f: nat, q: byte, text: seq<byte>, other: seq<byte>)
    requires IsQuotedRest(src, a, e, q, text) && IsQuotedRest(src, a, f, q, other)
    ensures e == f && text == other
    decreases |text|
  {
    hide Escape;
    if text == [] {
      ClosesHere(src, a, e, q);
      if other != [] {
        EscapeHead(src, a, f, other, q, [q]);
      } else {
        ClosesHere(src, a, f, q);
      }
    } else {
      EscapeHead(src, a, e, text, q, [q]);
      if other == [] {
        ClosesHere(src, a, f, q);
      } else {
        EscapeHead(src, a, f, other, q, [q]);
        var n := if text[0] == q then 2 else 1;
        QuotedUnique(src, a + n, e, f, q, text[1..], other[1..]);
        assert text == [text[0]] + text[1..] && other == [other[0]] + other[1..];
      }
    }
  }

  lemma TokenUnique(src: seq<byte>, t: Token, u: Token)
    requires t.start <= t.end <= |src| && u.start <= u.end <= |src|
    requires IsToken(src, t) && IsToken(src, u) && t.start == u.start && t.line == u.line
    ensures t == u
  {
    hide IsQuotedRest, IsRun, IsNumber;
    match t.kind
    case TokEOF =>
    case TokIdent => RunUnique(src, t.start, t.end, u.end, IsIdentCont);
    case TokNumber => NumberUnique(src, t.start, t.end, u.end);
    case TokString => QuotedUnique(src, t.start + 1, t.end, u.end, QUOTE, t.text, u.text);
    case TokQuotedIdent => QuotedUnique(src, t.start + 1, t.end, u.end, DOUBLE_QUOTE, t.text, u.text);
    case TokPunct =>
    case TokOp => RunUnique(src, t.start, t.end, u.end, OpSymbol);
  }

  lemma FollowsUnique(src: seq<byte>, from: nat, t: Token, u: Token)
    requires Follows(src, from, t) && Follows(src, from, u)
    ensures t == u
  {
    hide Trivia, StartsTrivia, IsToken, LineAt;
    TriviaUnique(src, from, t.start, u.start);
    TokenStartsInside(src, t);
    TokenStartsInside(src, u);
    if t.kind != TokEOF && u.kind != TokEOF {
      TokenUnique(src, t, u);
    }
  }

  lemma TokenStartsInside(src: seq<byte>, t: Token)
    requires t.start <= t.end <= |src|
    ensures IsToken(src, t) ==> t.start < |src|
  {
  }

  lemma SameEnd(a: seq<Token>, b: seq<Token>, n: nat)
    requires n <= |a| && n <= |b| && a[..n] == b[..n]
    ensures EndBefore(a, n) == EndBefore(b, n)
    ensures n < |a| && n < |b| && a[n] == b[n] ==> a[..n + 1] == b[..n + 1]
  {
    if n > 0 {
      assert a[n - 1] == a[..n][n - 1] == b[..n][n - 1] == b[n - 1];
    }
    if n < |a| && n < |b| {
      assert a[..n + 1] == a[..n] + [a[n]] && b[..n + 1] == b[..n] + [b[n]];
    }
  }

  lemma {:induction false} SamePrefix(src: seq<byte>, a: seq<Token>, b: seq<Token>, n: nat)
    requires IsTiling(src, a) && IsTiling(src, b) && n <= |a| && n <= |b|
    ensures a[..n] == b[..n]
    decreases n
  {
    hide IsTiling, Follows;
    if n > 0 {
      SamePrefix(src, a, b, n - 1);
      TokenOfTiling(src, a, n - 1);
      TokenOfTiling(src, b, n - 1);
      SameEnd(a, b, n - 1);
      FollowsUnique(src, EndBefore(a, n - 1), a[n - 1], b[n - 1]);
    }
  }

  /** A source has at most one tiling. */
  lemma TilingUnique(src: seq<byte>, a: seq<Token>, b: seq<Token>)
    requires IsTiling(src, a) && IsTiling(src, b)
    ensures a == b
  {
    hide IsTiling, Follows;
    TilingNonEmpty(src, a);
    TilingNonEmpty(src, b);
    var n := if |a| <= |b| then |a| else |b|;
    SamePrefix(src, a, b, n);
    assert a[n - 1] == a[..n][n - 1] == b[..n][n - 1] == b[n - 1];
    TokenOfTiling(src, a, n - 1);
    TokenOfTiling(src, b, n - 1);
    assert a[..|a|] == a && b[..|b|] == b;
  }

  // ---- a malformed source has no tiling ----

  lemma {:induction false} UnclosedNeverCloses(src: seq<byte>, a: nat, e: nat, q: byte, text: seq<byte>, other: seq<byte>)
    requires a <= |src| && src[a..] == Escape(text, q)
    ensures !IsQuotedRest(src, a, e, q, other)
    decreases |text|
  {
    hide Escape;
    assert src[a..] == src[a..|src|] && Escape(text, q) + [] == Escape(text, q);
    if IsQuotedRest(src, a, e, q, other) {
      if text == [] {
        EscapeNone(q);
        assert false;
      } else {
        EscapeHead(src, a, |src|, text, q, []);
        if other == [] {
          ClosesHere(src, a, e, q);
        } else {
          EscapeHead(src, a, e, other, q, [q]);
          var n := if text[0] == q then 2 else 1;
          assert src[a + n..] == src[a + n..|src|] == Escape(text[1..], q) + [] == Escape(text[1..], q);
          UnclosedNeverCloses(src, a + n, e, q, text[1..], other[1..]);
        }
      }
    }
  }

  lemma EscapeNone(q: byte)
    ensures Escape([], q) == []
  {
  }

  lemma FaultIsNoToken(src: seq<byte>, at: nat, fault: Fault, t: Token)
    requires at < |src| && IsFault(src, at, fault) && t.start == at && at <= t.end <= |src|
    requires !StartsTrivia(src, at)
    ensures !IsToken(src, t)
  {
    hide IsRun, IsNumber, Escape;
    match fault
    case UnterminatedComment =>
    case UnterminatedString =>
      var text :| src[at + 1..] == Escape(text, QUOTE);
      UnclosedNeverCloses(src, at + 1, t.end, QUOTE, text, t.text);
    case UnterminatedIdent =>
      var text :| src[at + 1..] == Escape(text, DOUBLE_QUOTE);
      UnclosedNeverCloses(src, at + 1, t.end, DOUBLE_QUOTE, text, t.text);
    case UnexpectedCharacter =>
  }

  /** No whitespace or comment can be skipped where the source is malformed. */
  lemma FaultStopsTrivia(src: seq<byte>, at: nat, fault: Fault, b: nat)
    requires at < |src| && IsFault(src, at, fault)
    ensures !IsPiece(src, at, b)
  {
  }

  /** Skipping trivia from the same place either stops before the fault, and then at trivia, or at it. */
  lemma {:induction false} TriviaReachesFault(src: seq<byte>, a: nat, at: nat, b: nat, fault: Fault)
    requires a <= at < |src| && Trivia(src, a, at) && IsFault(src, at, fault)
    requires a <= b && Trivia(src, a, b) && !StartsTrivia(src, b)
    ensures b == at
    decreases at - a
  {
    hide IsPiece, IsFault, StartsTrivia;
    if a == at {
      if b != a {
        var m: nat :| a < m <= b && IsPiece(src, a, m) && Trivia(src, m, b);
        FaultStopsTrivia(src, at, fault, m);
      }
    } else {
      var m: nat :| a < m <= at && IsPiece(src, a, m) && Trivia(src, m, at);
      PieceAdvances(src, a, m);
      var k: nat :| a < k <= b && IsPiece(src, a, k) && Trivia(src, k, b);
      PieceUnique(src, a, m, k);
      TriviaReachesFault(src, m, at, b, fault);
    }
  }

  lemma NothingFollowsFault(src: seq<byte>, from: nat, e: LexError, t: Token)
    requires Malformed(src, from, e)
    ensures !Follows(src, from, t)
  {
    hide Trivia, StartsTrivia, IsFault, IsToken, LineAt;
    var at: nat :| FaultAfter(src, from, at, e);
    if Follows(src, from, t) {
      TriviaReachesFault(src, from, at, t.start, e.fault);
      FaultIsNoToken(src, at, e.fault, t);
    }
  }

  lemma {:induction false} PrefixOfTiling(src: seq<byte>, toks: seq<Token>, whole: seq<Token>, n: nat)
    requires IsPrefix(src, toks) && IsTiling(src, whole) && n <= |toks|
    ensures n < |whole| && toks[..n] == whole[..n]
    decreases n
  {
    hide IsTiling, Follows;
    TilingNonEmpty(src, whole);
    if n > 0 {
      PrefixOfTiling(src, toks, whole, n - 1);
      TokenOfTiling(src, whole, n - 1);
      SameEnd(toks, whole, n - 1);
      FollowsUnique(src, EndBefore(toks, n - 1), toks[n - 1], whole[n - 1]);
    }
  }

  /** Lexing fails only on a source that cannot be tiled at all. */
  lemma BrokenHasNoTiling(src: seq<byte>, toks: seq<Token>, e: LexError, whole: seq<Token>)
    requires BreaksAfter(src, toks, e)
    ensures !IsTiling(src, whole)
  {
    hide IsTiling, Follows, Malformed;
    if IsTiling(src, whole) {
      var n := |toks|;
      PrefixOfTiling(src, toks, whole, n);
      TokenOfTiling(src, whole, n);
      SameEnd(toks, whole, n);
      NothingFollowsFault(src, EndBefore(toks, n), e, whole[n]);
    }
  }

  // ---- the lexer ----

  lemma EndsTiling(src: seq<byte>, toks: seq<Token>, eof: Token)
    requires IsPrefix(src, toks) && eof.kind == TokEOF && Follows(src, EndBefore(toks, |toks|), eof)
    ensures IsTiling(src, toks + [eof])
  {
    hide Follows;
    var all := toks + [eof];
    assert all[..|all| - 1] == toks && EndBefore(all, |toks|) == EndBefore(toks, |toks|);
  }

  /** Tokenizes a file: the result is its tiling, or the place where no tiling can go on. */
  method Lex(src: seq<byte>) returns (r: Result<seq<Token>, LexError>)
    ensures r.Ok? ==> IsTiling(src, r.value)
    ensures r.Err? ==> exists toks :: BreaksAfter(src, toks, r.error)
    ensures r.Err? ==> forall toks :: !IsTiling(src, toks)
  {
    hide Follows, Malformed, IsTiling;
    var l := new Lexer(src);
    var toks: seq<Token> := [];
    while true
      invariant fresh(l) && l.Valid() && l.src == src && l.pos == EndBefore(toks, |toks|)
      invariant IsPrefix(src, toks)
      decreases |src| - l.pos
    {
      var next := l.Next();
      if next.Err? {
        assert BreaksAfter(src, toks, next.error);
        forall whole {
          BrokenHasNoTiling(src, toks, next.error, whole);
        }
        return Err(next.error);
      }
      var tok := next.value;
      if tok.kind == TokEOF {
        EndsTiling(src, toks, tok);
        return Ok(toks + [tok]);
      }
      PrefixSnoc(src, toks, tok);
      toks := toks + [tok];
    }
  }

  // ---- statements ----

  predicate IsSemicolon(t: Token) {
    t.kind == TokPunct && t.text == [SEMICOLON]
  }

  /** The tokens before the first EOF, without the semicolons. */
  function Kept(toks: seq<Token>): seq<Token> {
    if toks == [] || toks[0].kind == TokEOF then []
    else (if IsSemicolon(toks[0]) then [] else [toks[0]]) + Kept(toks[1..])
  }

  function Concat(stmts: seq<seq<Token>>): seq<Token> {
    if stmts == [] then [] else Concat(stmts[..|stmts| - 1]) + stmts[|stmts| - 1]
  }

  /** toks[a..b] is a statement: it is not empty, holds no semicolon, and stands between two, or at an end. */
  ghost predicate IsStatement(toks: seq<Token>, a: nat, b: nat) {
    && a < b <= |toks|
    && (forall i :: a <= i < b ==> !IsSemicolon(toks[i]) && toks[i].kind != TokEOF)
    && (a == 0 || IsSemicolon(toks[a - 1]))
    && (b == |toks| || IsSemicolon(toks[b]) || toks[b].kind == TokEOF)
  }

  /** A stretch of tokens, from one position to another. */
  datatype Stretch = Stretch(from: nat, to: nat)

  /**
   The cuts are exactly the statements that end at or before position n, in order, and
   the k-th statement is the text of the k-th cut.
   */
  ghost predicate IsCut(toks: seq<Token>, stmts: seq<seq<Token>>, cuts: seq<Stretch>, n: nat) {
    && |cuts| == |stmts|
    && (forall k :: 0 <= k < |cuts| ==>
          && IsStatement(toks, cuts[k].from, cuts[k].to) && cuts[k].to <= n
          && stmts[k] == toks[cuts[k].from..cuts[k].to])
    && (forall k, l :: 0 <= k < l < |cuts| ==> cuts[k].to < cuts[l].from)
    && forall a: nat, b: nat :: IsStatement(toks, a, b) && b <= n ==> Stretch(a, b) in cuts
  }

  lemma {:induction false} KeptSnoc(toks: seq<Token>, t: Token)
    requires t.kind != TokEOF && forall i :: 0 <= i < |toks| ==> toks[i].kind != TokEOF
    ensures Kept(toks + [t]) == Kept(toks) + (if IsSemicolon(t) then [] else [t])
    decreases |toks|
  {
    if toks == [] {
      assert [] + [t] == [t] && [t][1..] == [];
    } else {
      KeptSnoc(toks[1..], t);
      assert (toks + [t])[1..] == toks[1..] + [t];
    }
  }

  lemma {:induction false} KeptToEOF(toks: seq<Token>, n: nat)
    requires n <= |toks| && (forall i :: 0 <= i < n ==> toks[i].kind != TokEOF)
    requires n == |toks| || toks[n].kind == TokEOF
    ensures Kept(toks) == Kept(toks[..n])
    decreases n
  {
    if n > 0 {
      KeptToEOF(toks[1..], n - 1);
      assert toks[..n][1..] == toks[1..][..n - 1];
    }
  }

  lemma ConcatSnoc(stmts: seq<seq<Token>>, stmt: seq<Token>)
    ensures Concat(stmts + [stmt]) == Concat(stmts) + stmt
  {
    assert (stmts + [stmt])[..|stmts|] == stmts;
  }

  /** Where the tokens that count end: at the first EOF. */
  ghost predicate EndsAt(toks: seq<Token>, n: nat) {
    && n <= |toks| && (forall i :: 0 <= i < n ==> toks[i].kind != TokEOF)
    && (n == |toks| || toks[n].kind == TokEOF)
  }

  /** The statement being collected: toks[i - n..i], since the last semicolon. */
  ghost predicate IsOpen(toks: seq<Token>, i: nat, n: nat) {
    && n <= i <= |toks| && (n == i || IsSemicolon(toks[i - n - 1]))
    && forall j :: i - n <= j < i ==> !IsSemicolon(toks[j]) && toks[j].kind != TokEOF
  }

  /** Cuts the tokens at semicolons, dropping nothing else: the statements are exactly the runs between them, in order. */
  method SplitStatements(toks: seq<Token>) returns (stmts: seq<seq<Token>>, ghost cuts: seq<Stretch>, ghost end: nat)
    ensures Concat(stmts) == Kept(toks)
    ensures EndsAt(toks, end) && IsCut(toks, stmts, cuts, end)
  {
    hide Kept, Concat, IsStatement, IsCut, IsOpen, IsSemicolon;
    stmts, cuts := [], [];
    var cur: seq<Token> := [];
    var i := 0;
    StartOfSplit(toks);
    while i < |toks| && toks[i].kind != TokEOF
      invariant 0 <= i <= |toks| && |cur| <= i
      invariant forall j :: 0 <= j < i ==> toks[j].kind != TokEOF
      invariant IsOpen(toks, i, |cur|) && cur == toks[i - |cur|..i]
      invariant Concat(stmts) + cur == Kept(toks[..i])
      invariant IsCut(toks, stmts, cuts, i - |cur|)
    {
      var t := toks[i];
      assert toks[..i + 1] == toks[..i] + [t];
      KeptSnoc(toks[..i], t);
      OpenStep(toks, i, |cur|);
      if t.kind == TokPunct && t.text == [SEMICOLON] {
        assert IsSemicolon(t) by { SemicolonIs(t); }
        CloseCut(toks, stmts, cuts, i, |cur|);
        if |cur| > 0 {
          ConcatSnoc(stmts, cur);
          stmts, cuts := stmts + [cur], cuts + [Stretch(i - |cur|, i)];
        }
        cur := [];
      } else {
        assert !IsSemicolon(t) by { SemicolonIs(t); }
        cur := cur + [t];
      }
      i := i + 1;
    }
    end := i;
    KeptToEOF(toks, i);
    CloseCut(toks, stmts, cuts, i, |cur|);
    if |cur| > 0 {
      ConcatSnoc(stmts, cur);
      stmts, cuts := stmts + [cur], cuts + [Stretch(i - |cur|, i)];
    }
    LastCut(toks, stmts, cuts, i);
  }

  /** A token of the source is a semicolon exactly when it starts with one; in quotes or comments it is none. */
  lemma SemicolonInSource(src: seq<byte>, from: nat, t: Token)
    requires Follows(src, from, t)
    ensures IsSemicolon(t) <==> t.start < |src| && src[t.start] as int as char == ';'
  {
    hide Trivia, StartsTrivia, LineAt, IsRun, IsNumber, IsQuotedRest;
    if t.start < |src| {
      ClassesAsText(src[t.start]);
      ClassesApart(src[t.start]);
      assert t.kind != TokEOF ==> t.raw[0] == src[t.start];
    }
  }

  lemma SemicolonIs(t: Token)
    ensures IsSemicolon(t) <==> t.kind == TokPunct && t.text == [SEMICOLON]
  {
  }

  lemma StartOfSplit(toks: seq<Token>)
    ensures Concat([]) == Kept([]) == []
    ensures IsOpen(toks, 0, 0) && IsCut(toks, [], [], 0)
  {
  }

  lemma OpenStep(toks: seq<Token>, i: nat, n: nat)
    requires i < |toks| && toks[i].kind != TokEOF && IsOpen(toks, i, n)
    ensures IsSemicolon(toks[i]) ==> IsOpen(toks, i + 1, 0)
    ensures !IsSemicolon(toks[i]) ==> IsOpen(toks, i + 1, n + 1)
  {
  }

  /** At a semicolon, or at the end, the open statement is the next one, if it is not empty. */
  lemma CloseCut(toks: seq<Token>, stmts: seq<seq<Token>>, cuts: seq<Stretch>, i: nat, n: nat)
    requires IsOpen(toks, i, n) && IsCut(toks, stmts, cuts, i - n)
    requires i == |toks| || IsSemicolon(toks[i]) || toks[i].kind == TokEOF
    ensures n > 0 ==> IsCut(toks, stmts + [toks[i - n..i]], cuts + [Stretch(i - n, i)], i + 1)
    ensures n == 0 ==> IsCut(toks, stmts, cuts, i + 1)
  {
    hide IsSemicolon;
    forall a: nat, b: nat | IsStatement(toks, a, b) && i - n < b <= i + 1 ensures n > 0 && a == i - n && b == i {
      OnlyOpen(toks, i, n, a, b);
    }
    if n > 0 {
      assert IsStatement(toks, i - n, i);
      var more := cuts + [Stretch(i - n, i)];
      forall k | 0 <= k < |cuts| ensures cuts[k].to < i - n {
        BeforeOpen(toks, i, n, cuts[k]);
      }
      assert more[|cuts|] == Stretch(i - n, i);
      assert forall x :: x in cuts ==> x in more;
    }
  }

  lemma BeforeOpen(toks: seq<Token>, i: nat, n: nat, x: Stretch)
    requires IsOpen(toks, i, n) && IsStatement(toks, x.from, x.to) && x.to <= i - n
    ensures x.to < i - n
  {
  }

  lemma StatementInside(toks: seq<Token>, a: nat, b: nat, i: nat)
    requires IsStatement(toks, a, b) && a <= i < b
    ensures i < |toks| && !IsSemicolon(toks[i]) && toks[i].kind != TokEOF
  {
  }

  lemma OnlyOpen(toks: seq<Token>, i: nat, n: nat, a: nat, b: nat)
    requires IsOpen(toks, i, n) && IsStatement(toks, a, b) && i - n < b <= i + 1
    requires i == |toks| || IsSemicolon(toks[i]) || toks[i].kind == TokEOF
    ensures n > 0 && a == i - n && b == i
  {
    hide IsSemicolon;
    if b == i + 1 {
      StatementInside(toks, a, b, i);
    }
  }

  lemma LastCut(toks: seq<Token>, stmts: seq<seq<Token>>, cuts: seq<Stretch>, i: nat)
    requires IsCut(toks, stmts, cuts, i + 1) && EndsAt(toks, i)
    ensures IsCut(toks, stmts, cuts, i)
  {
    hide IsSemicolon;
    assert forall k :: 0 <= k < |cuts| ==> cuts[k].to <= i;
  }
}

/** Cutting a whole input into tokens, with a driver made of the recognisers of whitespace, punctuators and
    identifiers. */
module Tokenising {
  import opened Tokens
  import opened Characters
  import opened Gates
  import opened TokenTable
  import opened Punctuators

  /** The type of the first token, and how many characters it has.  Nothing is consumed for a punctuator
      character without a case. */
  function First(s: string): (TokenType, nat)
    requires s != ""
  {
    if IsWhitespaceChar(s[0]) then (Whitespace, Span(Blank, s))
    else if IsPunctuatorChar(s[0]) then MunchAt(s)
    else (Identifier, Span(Word, s))
  }

  /** Blanks that are skipped in front of a token. */
  function Skipped(s: string, eat: bool): (n: nat)
    ensures n <= |s|
  {
    if eat then Span(Blank, s) else 0
  }

  function FirstToken(s: string, p: Position): Token
    requires s != ""
  {
    Token(Code(First(s).0), p, Take(s, First(s).1))
  }

  /** All tokens of `s`, which starts at position `p`. */
  function TokensOf(s: string, p: Position, eat: bool): seq<Token>
    decreases |s|, 1
  {
    var b := Skipped(s, eat);
    TokensFrom(s[b..], Advance(p, s[..b]), eat)
  }

  /** All tokens of `r`, where nothing is to be skipped in front. */
  function TokensFrom(r: string, q: Position, eat: bool): seq<Token>
    decreases |r|, 0
  {
    if r == "" || First(r).1 == 0 then []
    else
      var n := First(r).1;
      [FirstToken(r, q)] + TokensOf(Drop(r, n), Advance(q, Take(r, n)), eat)
  }

  lemma NothingSkipped(s: string, p: Position, eat: bool)
    requires Skipped(s, eat) == 0
    ensures TokensOf(s, p, eat) == TokensFrom(s, p, eat)
  {
  }

  /** No punctuator characters without a case. */
  predicate Lexable(s: string) {
    forall i :: 0 <= i < |s| ==> s[i] != '#' && s[i] != '$'
  }

  lemma CleanDrop(s: string, n: nat)
    requires n <= |s|
    ensures Clean(s) ==> Clean(s[n..])
    ensures Lexable(s) ==> Lexable(s[n..])
  {
  }

  // ---------------------------------------------------------------- one token

  /** A token of one of the shapes that the driver produces. */
  ghost predicate Shaped(t: TokenType, text: string) {
    || (t == Whitespace && text != "" && AllIn(Blank, text))
    || (t == Identifier && text != "" && AllIn(Word, text))
    || (text != "" && text == Spelling(t) && t != BackwardApostrophe)
  }

  /** A first token consumes something exactly unless a character without a case stands in front; then its
      text is the front of the input and has one of the shapes. */
  lemma FirstConsumes(s: string)
    requires s != "" && Clean(s)
    ensures First(s).1 > 0 <==> s[0] != '#' && s[0] != '$'
    ensures First(s).1 <= |s| && Take(s, First(s).1) == s[..First(s).1]
    ensures First(s).1 > 0 ==> Shaped(First(s).0, Take(s, First(s).1))
  {
    assert IsText(s[0]);
    if IsWhitespaceChar(s[0]) {
      SpanIs(Blank, s);
    } else if IsPunctuatorChar(s[0]) {
      NullIff(s);
      if MunchAt(s).0 != Null {
        MunchIsSpelled(s);
        MunchLetters(At(s, 0), At(s, 1), At(s, 2));
        BackquoteIsUnreachable(s);
      } else {
        assert MunchAt(s).1 == 0 by {
          NullCountsNothing(s);
        }
      }
    } else {
      SpanIs(Word, s);
    }
  }

  lemma NullCountsNothing(s: string)
    requires MunchAt(s).0 == Null
    ensures MunchAt(s).1 == 0
  {
  }

  lemma SpelledIsLexable(t: TokenType, i: nat)
    requires i < |Spelling(t)|
    ensures Spelling(t)[i] != '#' && Spelling(t)[i] != '$'
  {
    hide LettersOf;
    LettersHaveCases(t);
  }

  lemma ShapedIsLexable(t: TokenType, text: string)
    requires Shaped(t, text)
    ensures Lexable(text)
  {
    hide Spelling;
    if text == Spelling(t) {
      forall i | 0 <= i < |text| ensures text[i] != '#' && text[i] != '$' {
        SpelledIsLexable(t, i);
      }
    } else {
      assert IsPunctuatorChar('#') && IsPunctuatorChar('$');
    }
  }

  // ---------------------------------------------------------------- the first token of any input

  /** The type of a token, how many characters were consumed for it, its text, and the gate behind it. */
  datatype Cut = Cut(kind: TokenType, n: nat, text: string, gate: Gate)

  /** What the driver makes of any input. */
  function CutFirst(rest: string, g: Gate): Cut {
    var g1 := Look(g, rest, 1);
    if IsWhitespaceChar(At(rest, 0)) then
      var r := RunOf(Blank, rest, g1);
      Cut(Whitespace, r.n, r.text, r.gate)
    else if IsPunctuatorChar(At(rest, 0)) then
      var (t, n) := MunchAt(rest);
      var g2 := Look(g1, rest, 3);
      Cut(t, n, Shown(g2, Take(rest, n)), Consume(g2, n))
    else
      var r := RunOf(Word, rest, g1);
      Cut(Identifier, r.n, r.text, r.gate)
  }

  /** Of clean input it is the first token. */
  lemma CleanCut(rest: string, g: Gate)
    requires Clean(rest) && rest != "" && g.emits
    ensures var c, n := CutFirst(rest, g), First(rest).1;
      && c.kind == First(rest).0 && c.n == n && c.text == Take(rest, n)
      && c.gate.emits && c.gate.flagged == g.flagged
  {
    var g1 := Look(g, rest, 1);
    CleanLook(g, rest, 1);
    CleanLook(g1, rest, 3);
    CleanRun(Blank, rest, g1);
    CleanRun(Word, rest, g1);
  }

  // ---------------------------------------------------------------- nothing is lost

  function Texts(ts: seq<Token>): string {
    if ts == [] then "" else ts[0].text + Texts(ts[1..])
  }

  /** Every token carries the position of its first character, where the tokens start at `p` and leave
      nothing out. */
  predicate PositionsRight(ts: seq<Token>, p: Position)
    decreases |ts|
  {
    ts != [] ==> ts[0].at == p && PositionsRight(ts[1..], Advance(p, ts[0].text))
  }

  /** Texts join to the front of `s`, up to the first character without a case; every text is non-empty and
      every position right. */
  predicate Covers(ts: seq<Token>, s: string, p: Position) {
    && |Texts(ts)| <= |s| && Texts(ts) == s[..|Texts(ts)|] && Lexable(Texts(ts))
    && (Texts(ts) != s ==> s[|Texts(ts)|] == '#' || s[|Texts(ts)|] == '$')
    && PositionsRight(ts, p) && forall t :: t in ts ==> t.text != ""
  }

  /** With whitespace tokens nothing is left out. */
  lemma {:induction false} TokensCover(s: string, p: Position)
    requires Clean(s)
    ensures Covers(TokensOf(s, p, false), s, p)
    decreases |s|
  {
    NothingSkipped(s, p, false);
    hide TokensOf;
    if s != "" {
      FirstConsumes(s);
      var n := First(s).1;
      if n > 0 {
        ShapedIsLexable(First(s).0, Take(s, n));
        TakeWithin(s, n);
        CleanDrop(s, n);
        TokensCover(s[n..], Advance(p, s[..n]));
        hide First, Shaped, Clean, Drop, Lexable;
        var rest := TokensOf(s[n..], Advance(p, s[..n]), false);
        CoverStep(s, p, n, FirstToken(s, p), rest);
      }
    }
  }

  lemma CoverStep(s: string, p: Position, n: nat, t: Token, rest: seq<Token>)
    requires 0 < n <= |s| && t.text == s[..n] && Lexable(s[..n]) && t.at == p
    requires Covers(rest, s[n..], Advance(p, s[..n]))
    ensures Covers([t] + rest, s, p)
  {
  }

  /** The tokens hold the whole input exactly if every character has a case. */
  lemma LosslessIff(s: string, p: Position)
    requires Clean(s)
    ensures Texts(TokensOf(s, p, false)) == s <==> Lexable(s)
  {
    TokensCover(s, p);
  }

  /** Tokens that are not whitespace. */
  function WithoutBlanks(ts: seq<Token>): seq<Token> {
    if ts == [] then []
    else (if ts[0].tokenType == 3 then [] else [ts[0]]) + WithoutBlanks(ts[1..])
  }

  /** Eating whitespace gives the same tokens, at the same positions, but those of whitespace. */
  lemma {:induction false} EatingDropsBlanks(s: string, p: Position)
    requires Clean(s)
    ensures TokensOf(s, p, true) == WithoutBlanks(TokensOf(s, p, false))
    decreases |s|
  {
    NothingSkipped(s, p, false);
    var b := Span(Blank, s);
    var r, q := s[b..], Advance(p, s[..b]);
    SpanIs(Blank, s);
    CleanDrop(s, b);
    if b > 0 {
      assert s[..b][0] == s[0];
      BlankFirst(s, p);
      NothingSkipped(r, q, false);
    } else {
      assert r == s && q == p;
    }
    assert r != "" ==> !IsWhitespaceChar(r[0]);
    hide Span, IsWhitespaceChar, IsPunctuatorChar;
    SolidFront(r, q);
  }

  lemma BlankFirst(s: string, p: Position)
    requires s != "" && IsWhitespaceChar(s[0])
    ensures var b := Span(Blank, s);
      && b > 0 && TokensFrom(s, p, false) == [Token(3, p, s[..b])] + TokensOf(s[b..], Advance(p, s[..b]), false)
      && WithoutBlanks(TokensFrom(s, p, false)) == WithoutBlanks(TokensOf(s[b..], Advance(p, s[..b]), false))
  {
    var b := Span(Blank, s);
    TakeWithin(s, b);
    var rest := TokensOf(s[b..], Advance(p, s[..b]), false);
    hide TokensOf;
    assert ([Token(3, p, s[..b])] + rest)[1..] == rest;
  }

  lemma {:induction false} SolidFront(r: string, q: Position)
    requires Clean(r) && (r != "" ==> !IsWhitespaceChar(r[0]))
    ensures TokensFrom(r, q, true) == WithoutBlanks(TokensFrom(r, q, false))
    decreases |r|, 0
  {
    if r != "" && First(r).1 > 0 {
      var n := First(r).1;
      FirstConsumes(r);
      NoBlankNoWhitespace(r);
      TakeWithin(r, n);
      CleanDrop(r, n);
      EatingDropsBlanks(r[n..], Advance(q, r[..n]));
      var t, rest := FirstToken(r, q), TokensOf(r[n..], Advance(q, r[..n]), false);
      OnlyBlanksAreBlank(First(r).0);
      assert ([t] + rest)[1..] == rest;
      hide TokensOf, First;
    }
  }

  lemma OnlyBlanksAreBlank(k: TokenType)
    ensures Code(k) == 3 <==> k == Whitespace
  {
  }

  // ---------------------------------------------------------------- lexing again

  /** Token texts with a single space in between. */
  function Joined(ts: seq<Token>): string {
    if ts == [] then ""
    else if |ts| == 1 then ts[0].text
    else ts[0].text + (" " + Joined(ts[1..]))
  }

  /** Same types and texts, wherever they stand. */
  predicate SameTokens(ts: seq<Token>, us: seq<Token>) {
    |ts| == |us| && forall i :: 0 <= i < |ts| ==> ts[i].tokenType == us[i].tokenType && ts[i].text == us[i].text
  }

  /** What the driver makes without whitespace tokens. */
  ghost predicate Solid(t: Token) {
    exists k :: t.tokenType == Code(k) && k != Whitespace && Shaped(k, t.text)
  }

  lemma {:induction false} TokensAreSolid(s: string, p: Position)
    requires Clean(s)
    ensures forall t :: t in TokensOf(s, p, true) ==> Solid(t)
    decreases |s|
  {
    var b := Span(Blank, s);
    var r, q := s[b..], Advance(p, s[..b]);
    SpanIs(Blank, s);
    CleanDrop(s, b);
    if r != "" {
      assert !IsWhitespaceChar(r[0]);
      FirstConsumes(r);
      NoBlankNoWhitespace(r);
      var n := First(r).1;
      if n > 0 {
        CleanDrop(r, n);
        TokensAreSolid(r[n..], Advance(q, Take(r, n)));
        assert Solid(FirstToken(r, q));
        hide First, Solid, FirstToken, Clean;
      }
    }
  }

  lemma NoBlankNoWhitespace(r: string)
    requires r != "" && !IsWhitespaceChar(r[0])
    ensures First(r).0 != Whitespace
  {
  }

  /** Behind the text of a solid token comes a space or nothing; then it is cut off again as it was. */
  lemma CutAgain(k: TokenType, text: string, rest: string)
    requires k != Whitespace && Shaped(k, text) && (rest == "" || rest[0] == ' ')
    ensures First(text + rest) == (k, |text|)
    ensures text != "" && !IsWhitespaceChar(text[0])
  {
    if k == Identifier {
      SpanUnique(Word, text, rest);
    } else {
      MunchAlone(k, rest);
      SpelledIsPunctuator(k);
    }
  }

  lemma SpelledIsPunctuator(k: TokenType)
    requires Spelling(k) != "" && k != BackwardApostrophe
    ensures IsPunctuatorChar(Spelling(k)[0]) && !IsWhitespaceChar(Spelling(k)[0])
  {
    hide Munch, LettersOf;
    AloneIs(k, Spelling(k)[0], At(Spelling(k), 1), At(Spelling(k), 2));
    CaseIsPunctuator(k, Spelling(k)[0], At(Spelling(k), 1), At(Spelling(k), 2));
  }

  lemma CaseIsPunctuator(k: TokenType, c1: char, c2: char, c3: char)
    requires Munch(c1, c2, c3).0 == k && k != Null && k != BackwardApostrophe
    ensures IsPunctuatorChar(c1) && !IsWhitespaceChar(c1)
  {
    OperatorStarts(c1, c2, c3);
  }

  /** A leading space moves everything by one column and changes nothing else. */
  lemma LeadingSpace(u: string, p: Position)
    ensures TokensOf(" " + u, p, true) == TokensOf(u, Step(p, ' '), true)
  {
    var s, b := " " + u, Span(Blank, u);
    assert s[1..] == u;
    assert Span(Blank, s) == 1 + b;
    assert s[1 + b..] == u[b..];
    assert s[..1 + b][1..] == u[..b];
    hide TokensFrom;
  }

  /** What follows the first token in the joined text. */
  function Behind(ts: seq<Token>): (r: string)
    requires ts != []
    ensures r == "" || r[0] == ' '
    ensures Joined(ts) == ts[0].text + r
  {
    if |ts| == 1 then "" else " " + Joined(ts[1..])
  }

  ghost function KindOf(t: Token): (k: TokenType)
    requires Solid(t)
    ensures t.tokenType == Code(k) && k != Whitespace && Shaped(k, t.text)
  {
    var k :| t.tokenType == Code(k) && k != Whitespace && Shaped(k, t.text); k
  }

  lemma NothingJoined(p: Position)
    ensures Joined([]) == "" && TokensOf("", p, true) == []
  {
  }

  lemma CutOne(k: TokenType, text: string, rest: string, p: Position)
    requires text != "" && !IsWhitespaceChar(text[0]) && First(text + rest) == (k, |text|)
    ensures TokensOf(text + rest, p, true) == [Token(Code(k), p, text)] + TokensOf(rest, Advance(p, text), true)
  {
    NothingSkipped(text + rest, p, true);
    TakeWithin(text + rest, |text|);
    hide First, TokensOf;
    assert (text + rest)[..|text|] == text && (text + rest)[|text|..] == rest;
  }

  lemma JoinOne(ts: seq<Token>, t: Token, us: seq<Token>)
    requires ts != [] && t.tokenType == ts[0].tokenType && t.text == ts[0].text && SameTokens(us, ts[1..])
    ensures SameTokens([t] + us, ts)
  {
  }

  /** Joining solid tokens by single spaces and cutting again gives the same types and texts. */
  lemma {:induction false} JoinedCutsAgain(ts: seq<Token>, p: Position)
    requires forall t :: t in ts ==> Solid(t)
    ensures SameTokens(TokensOf(Joined(ts), p, true), ts)
    decreases |ts|
  {
    hide TokensOf, TokensFrom, First, Joined, Solid, Shaped, Advance, Step, Code;
    if ts == [] {
      NothingJoined(p);
    } else {
      var text := ts[0].text;
      var rest := Behind(ts);
      var k := KindOf(ts[0]);
      CutAgain(k, text, rest);
      CutOne(k, text, rest, p);
      var q := Advance(p, text);
      if |ts| == 1 {
        NothingJoined(q);
      } else {
        LeadingSpace(Joined(ts[1..]), q);
        JoinedCutsAgain(ts[1..], Step(q, ' '));
      }
      JoinOne(ts, Token(Code(k), p, text), TokensOf(rest, q, true));
    }
  }

  /** Re-lexing is stable for every input. */
  lemma {:induction false} RelexingIsStable(s: string, p: Position, q: Position)
    requires Clean(s)
    ensures SameTokens(TokensOf(Joined(TokensOf(s, p, true)), q, true), TokensOf(s, p, true))
  {
    TokensAreSolid(s, p);
    JoinedCutsAgain(TokensOf(s, p, true), q);
  }
}

/** Longest match over the token table, on strings. */
module Punctuators {
  import opened TokenTable
  import opened Characters

  function Spelling(t: TokenType): string {
    match LettersOf(t)
    case Unspelled => ""
    case One(c) => [c]
    case Two(c, d) => [c, d]
    case Three(c, d, e) => [c, d, e]
  }

  /** In the order of their numbers, the types are spelled as the comments of the enumeration say, or not at all. */
  lemma SpelledInOrder(t: TokenType)
    ensures Code(t) < 10 ==>
      Spelling(t) == ""
    ensures 10 <= Code(t) < 20 ==>
      Spelling(t) == ["<", "/>", "==", "!=", ">", ">=", "<=", "=", "+", "-"][Code(t) - 10]
    ensures 20 <= Code(t) < 30 ==>
      Spelling(t) == ["*", "/", "%", "++", "--", "+=", "-=", "*=", "/=", "%="][Code(t) - 20]
  {
  }

  /** A left shift is two brackets. */
  lemma OthersSpelledInOrder(t: TokenType)
    ensures Code(t) < 62
    ensures 30 <= Code(t) < 40 ==>
      Spelling(t) == ["&=", "|=", "^=", "<<=", ">>=", "!", "&&", "||", "~", "&"][Code(t) - 30]
    ensures 40 <= Code(t) < 50 ==>
      Spelling(t) == ["|", "^", "<<", ">>", "(", ")", "[", "]", "{", "}"][Code(t) - 40]
    ensures 50 <= Code(t) < 62 ==>
      Spelling(t) == [".", ",", ";", ":", "?", "->", "...", "\\", "\"", "'", "`", "@"][Code(t) - 50]
  {
  }

  function MunchAt(s: string): (TokenType, nat) {
    Munch(At(s, 0), At(s, 1), At(s, 2))
  }

  /** The string starts with the spelling of this punctuator. */
  predicate StartsWith(s: string, t: TokenType) {
    var p := Spelling(t);
    p != "" && |p| <= |s| && forall i :: 0 <= i < |p| ==> s[i] == p[i]
  }

  /** What is munched is spelled as the table says. */
  lemma {:induction false} MunchIsSpelled(s: string)
    requires MunchAt(s).0 != Null && s != ""
    ensures StartsWith(s, MunchAt(s).0) && |Spelling(MunchAt(s).0)| == MunchAt(s).1
  {
    hide LettersOf;
    MunchLetters(At(s, 0), At(s, 1), At(s, 2));
    hide Munch;
    assert Spelling(MunchAt(s).0) != "";
  }

  /** No longer punctuator of the table is at the front. */
  lemma {:induction false} MunchIsLongest(s: string, t: TokenType)
    requires StartsWith(s, t)
    ensures MunchAt(s).0 != Null && |Spelling(t)| <= MunchAt(s).1
  {
    hide Munch, LettersOf;
    MunchCovers(t, At(s, 0), At(s, 1), At(s, 2));
    MunchLetters(At(s, 0), At(s, 1), At(s, 2));
  }

  /** The type left at the end is the null type exactly for the two punctuator characters without a case. */
  lemma NullIff(s: string)
    requires s != "" && IsText(s[0]) && IsPunctuatorChar(s[0])
    ensures MunchAt(s).0 == Null <==> s[0] == '#' || s[0] == '$'
  {
  }

  /** The token type for the backquote is never produced: its character is not a punctuator character. */
  lemma BackquoteIsUnreachable(s: string)
    requires s != "" && IsPunctuatorChar(s[0])
    ensures MunchAt(s).0 != BackwardApostrophe
  {
  }

  /** Behind a blank or at the end, a punctuator is munched as itself. */
  lemma MunchAlone(t: TokenType, rest: string)
    requires Spelling(t) != "" && (rest == "" || rest[0] == ' ')
    ensures MunchAt(Spelling(t) + rest) == (t, |Spelling(t)|)
  {
    hide Munch, LettersOf;
    var s := Spelling(t) + rest;
    AloneIs(t, At(s, 0), At(s, 1), At(s, 2));
  }

  lemma SpellingInjective(t: TokenType, u: TokenType)
    requires Spelling(t) != "" && Spelling(t) == Spelling(u)
    ensures t == u
  {
    assert Spelling(t) + "" == Spelling(t);
    MunchAlone(t, "");
    MunchAlone(u, "");
  }
}

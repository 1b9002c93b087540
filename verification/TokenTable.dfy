/** Token types, the letters of the punctuators among them, and the case distinction of `lex_c11_punctuator`. */
module TokenTable {
  datatype TokenType =
    | Null | InlineComment | EnclosedComment | Whitespace | Identifier | StringLiteral | CharacterConstant
    | IntegerLiteral | FloatLiteral | Directive | Less | DivideGreater | EqualEqual | NotEqual
    | Greater | GreaterEqual | LessEqual | Equal | Plus | Minus | Asterisk
    | Divide | Modulo | Increment | Decrement | AddEqual | SubtractEqual | MultiplyEqual
    | DivideEqual | ModuloEqual | BitwiseAndEqual | BitwiseOrEqual | BitwiseXorEqual | BitwiseLeftShiftEqual
    | BitwiseRightShiftEqual
    | LogicalNot | LogicalAnd | LogicalOr | BitwiseNot | BitwiseAnd | BitwiseOr | BitwiseXor
    | BitwiseLeftShift | BitwiseRightShift | OpenParen | CloseParen | OpenBracket | CloseBracket | OpenBrace
    | CloseBrace | Dot | Comma | Semicolon | Colon | QuestionMark | Arrow
    | DotDotDot | BackwardSlash | Quote | Apostrophe | BackwardApostrophe | AtSign

  /** The number of a token type in the enumeration. */
  function Code(t: TokenType): nat {
    match t
    case Null => 0  case InlineComment => 1  case EnclosedComment => 2  case Whitespace => 3
    case Identifier => 4  case StringLiteral => 5  case CharacterConstant => 6  case IntegerLiteral => 7
    case FloatLiteral => 8  case Directive => 9  case Less => 10  case DivideGreater => 11
    case EqualEqual => 12  case NotEqual => 13  case Greater => 14  case GreaterEqual => 15
    case LessEqual => 16  case Equal => 17  case Plus => 18  case Minus => 19
    case Asterisk => 20  case Divide => 21  case Modulo => 22  case Increment => 23
    case Decrement => 24  case AddEqual => 25  case SubtractEqual => 26  case MultiplyEqual => 27
    case DivideEqual => 28  case ModuloEqual => 29  case BitwiseAndEqual => 30  case BitwiseOrEqual => 31
    case BitwiseXorEqual => 32  case BitwiseLeftShiftEqual => 33  case BitwiseRightShiftEqual => 34
    case LogicalNot => 35
    case LogicalAnd => 36  case LogicalOr => 37  case BitwiseNot => 38  case BitwiseAnd => 39
    case BitwiseOr => 40  case BitwiseXor => 41  case BitwiseLeftShift => 42  case BitwiseRightShift => 43
    case OpenParen => 44  case CloseParen => 45  case OpenBracket => 46  case CloseBracket => 47
    case OpenBrace => 48  case CloseBrace => 49  case Dot => 50  case Comma => 51
    case Semicolon => 52  case Colon => 53  case QuestionMark => 54  case Arrow => 55
    case DotDotDot => 56  case BackwardSlash => 57  case Quote => 58  case Apostrophe => 59
    case BackwardApostrophe => 60  case AtSign => 61
  }

  /** The types in the order of their declaration have the numbers from 0 on. */
  lemma CodesInOrder(t: TokenType)
    ensures Code(t) < 10 ==>
      t == [Null, InlineComment, EnclosedComment, Whitespace, Identifier, StringLiteral, CharacterConstant,
      IntegerLiteral, FloatLiteral, Directive][Code(t)]
    ensures 10 <= Code(t) < 20 ==>
      t == [Less, DivideGreater, EqualEqual, NotEqual, Greater, GreaterEqual, LessEqual, Equal, Plus,
      Minus][Code(t) - 10]
    ensures 20 <= Code(t) < 30 ==>
      t == [Asterisk, Divide, Modulo, Increment, Decrement, AddEqual, SubtractEqual, MultiplyEqual, DivideEqual,
      ModuloEqual][Code(t) - 20]
  {
  }

  /** The last one has the number 61. */
  lemma OtherCodesInOrder(t: TokenType)
    ensures Code(t) < 62
    ensures 30 <= Code(t) < 40 ==>
      t == [BitwiseAndEqual, BitwiseOrEqual, BitwiseXorEqual, BitwiseLeftShiftEqual, BitwiseRightShiftEqual,
      LogicalNot, LogicalAnd, LogicalOr, BitwiseNot, BitwiseAnd][Code(t) - 30]
    ensures 40 <= Code(t) < 50 ==>
      t == [BitwiseOr, BitwiseXor, BitwiseLeftShift, BitwiseRightShift, OpenParen, CloseParen, OpenBracket,
      CloseBracket, OpenBrace, CloseBrace][Code(t) - 40]
    ensures 50 <= Code(t) < 62 ==>
      t == [Dot, Comma, Semicolon, Colon, QuestionMark, Arrow, DotDotDot, BackwardSlash, Quote, Apostrophe,
      BackwardApostrophe, AtSign][Code(t) - 50]
  {
  }

  /** A spelling of up to three characters. */
  datatype Letters = Unspelled | One(c: char) | Two(c: char, d: char) | Three(c: char, d: char, e: char)

  /** The token table: how each punctuator is spelled.  Other types have no fixed spelling. */
  function LettersOf(t: TokenType): Letters {
    match t
    case Less => One('<')  case DivideGreater => Two('/', '>')  case EqualEqual => Two('=', '=')
    case NotEqual => Two('!', '=')  case Greater => One('>')  case GreaterEqual => Two('>', '=')
    case LessEqual => Two('<', '=')  case Equal => One('=')  case Plus => One('+')
    case Minus => One('-')  case Asterisk => One('*')  case Divide => One('/')
    case Modulo => One('%')  case Increment => Two('+', '+')  case Decrement => Two('-', '-')
    case AddEqual => Two('+', '=')  case SubtractEqual => Two('-', '=')  case MultiplyEqual => Two('*', '=')
    case DivideEqual => Two('/', '=')  case ModuloEqual => Two('%', '=')  case BitwiseAndEqual => Two('&', '=')
    case BitwiseOrEqual => Two('|', '=')  case BitwiseXorEqual => Two('^', '=')
    case BitwiseLeftShiftEqual => Three('<', '<', '=')
    case BitwiseRightShiftEqual => Three('>', '>', '=')  case LogicalNot => One('!')  case LogicalAnd => Two('&', '&')
    case LogicalOr => Two('|', '|')  case BitwiseNot => One('~')  case BitwiseAnd => One('&')
    case BitwiseOr => One('|')  case BitwiseXor => One('^')  case BitwiseLeftShift => Two('<', '<')
    case BitwiseRightShift => Two('>', '>')  case OpenParen => One('(')  case CloseParen => One(')')
    case OpenBracket => One('[')  case CloseBracket => One(']')  case OpenBrace => One('{')
    case CloseBrace => One('}')  case Dot => One('.')  case Comma => One(',')
    case Semicolon => One(';')  case Colon => One(':')  case QuestionMark => One('?')
    case Arrow => Two('-', '>')  case DotDotDot => Three('.', '.', '.')  case BackwardSlash => One('\\')
    case Quote => One('"')  case Apostrophe => One('\'')  case BackwardApostrophe => One('`')
    case AtSign => One('@')
    case _ => Unspelled
  }

  lemma LettersHaveCases(t: TokenType)
    ensures match LettersOf(t)
      case Unspelled => true
      case One(c) => c != '#' && c != '$'
      case Two(c, d) => c != '#' && c != '$' && d != '#' && d != '$'
      case Three(c, d, e) => c != '#' && c != '$' && d != '#' && d != '$' && e != '#' && e != '$'
  {
  }

  function LetterCount(l: Letters): nat {
    match l
    case Unspelled => 0
    case One(_) => 1
    case Two(_, _) => 2
    case Three(_, _, _) => 3
  }

  /** The characters that are a punctuator on their own, whatever follows. */
  function Lone(c: char): TokenType {
    match c
    case '(' => OpenParen  case ')' => CloseParen  case '[' => OpenBracket
    case ']' => CloseBracket  case '{' => OpenBrace  case '}' => CloseBrace
    case ';' => Semicolon  case '?' => QuestionMark  case ':' => Colon
    case ',' => Comma  case '\\' => BackwardSlash  case '`' => BackwardApostrophe
    case '"' => Quote  case '\'' => Apostrophe  case '@' => AtSign
    case '~' => BitwiseNot
    case _ => Null
  }

  /** The characters with which longer punctuators start. */
  function Operator(c1: char, c2: char, c3: char): (TokenType, nat) {
    if c1 == '.' then if c2 == '.' && c3 == '.' then (DotDotDot, 3) else (Dot, 1)
    else if c1 == '+' then if c2 == '+' then (Increment, 2) else if c2 == '=' then (AddEqual, 2) else (Plus, 1)
    else if c1 == '-' then
      if c2 == '-' then (Decrement, 2) else if c2 == '>' then (Arrow, 2)
      else if c2 == '=' then (SubtractEqual, 2) else (Minus, 1)
    else if c1 == '*' then if c2 == '=' then (MultiplyEqual, 2) else (Asterisk, 1)
    else if c1 == '/' then if c2 == '=' then (DivideEqual, 2) else if c2 == '>' then (DivideGreater, 2) else (Divide, 1)
    else if c1 == '%' then if c2 == '=' then (ModuloEqual, 2) else (Modulo, 1)
    else if c1 == '=' then if c2 == '=' then (EqualEqual, 2) else (Equal, 1)
    else if c1 == '!' then if c2 == '=' then (NotEqual, 2) else (LogicalNot, 1)
    else if c1 == '>' then
      if c2 == '=' then (GreaterEqual, 2)
      else if c2 == '>' then if c3 == '=' then (BitwiseRightShiftEqual, 3) else (BitwiseRightShift, 2)
      else (Greater, 1)
    else if c1 == '<' then
      if c2 == '=' then (LessEqual, 2)
      else if c2 == '<' then if c3 == '=' then (BitwiseLeftShiftEqual, 3) else (BitwiseLeftShift, 2)
      else (Less, 1)
    else if c1 == '&' then
      if c2 == '=' then (BitwiseAndEqual, 2) else if c2 == '&' then (LogicalAnd, 2) else (BitwiseAnd, 1)
    else if c1 == '|' then
      if c2 == '=' then (BitwiseOrEqual, 2) else if c2 == '|' then (LogicalOr, 2) else (BitwiseOr, 1)
    else if c1 == '^' then if c2 == '=' then (BitwiseXorEqual, 2) else (BitwiseXor, 1)
    else (Null, 0)
  }

  /** The case distinction of `lex_c11_punctuator` on the next three characters: a type, and how many of
      them belong to it. */
  function Munch(c1: char, c2: char, c3: char): (TokenType, nat) {
    if Lone(c1) != Null then (Lone(c1), 1) else Operator(c1, c2, c3)
  }

  predicate StartsBracket(c: char) {
    c == '(' || c == ')' || c == '[' || c == ']' || c == '{' || c == '}'
  }

  predicate StartsMark(c: char) {
    || c == ';' || c == '?' || c == ':' || c == ',' || c == '\\'
    || c == '`' || c == '"' || c == '\'' || c == '@' || c == '~'
  }

  lemma LoneStarts(c: char)
    ensures Lone(c) != Null <==> StartsBracket(c) || StartsMark(c)
  {
  }

  lemma BracketLetters(c: char)
    requires StartsBracket(c)
    ensures LettersOf(Lone(c)) == One(c)
  {
  }

  lemma MarkLetters(c: char)
    requires StartsMark(c)
    ensures LettersOf(Lone(c)) == One(c)
  {
  }

  /** `n` of the characters, none of them past the end, spell `t`. */
  predicate MunchedIs(t: TokenType, n: nat, c1: char, c2: char, c3: char) {
    && 1 <= n <= 3 && (n >= 2 ==> c2 != '\0') && (n >= 3 ==> c3 != '\0')
    && LettersOf(t) == if n == 1 then One(c1) else if n == 2 then Two(c1, c2) else Three(c1, c2, c3)
  }

  lemma SignLetters(c1: char, c2: char, c3: char)
    requires c1 == '.' || c1 == '+' || c1 == '-' || c1 == '*' || c1 == '/' || c1 == '%'
    ensures var (t, n) := Operator(c1, c2, c3); MunchedIs(t, n, c1, c2, c3)
  {
  }

  lemma ComparisonLetters(c1: char, c2: char, c3: char)
    requires c1 == '=' || c1 == '!' || c1 == '<' || c1 == '>'
    ensures var (t, n) := Operator(c1, c2, c3); MunchedIs(t, n, c1, c2, c3)
  {
  }

  lemma BitwiseLetters(c1: char, c2: char, c3: char)
    requires c1 == '&' || c1 == '|' || c1 == '^'
    ensures var (t, n) := Operator(c1, c2, c3); MunchedIs(t, n, c1, c2, c3)
  {
  }

  predicate StartsOperator(c: char) {
    || c == '.' || c == '+' || c == '-' || c == '*' || c == '/' || c == '%'
    || c == '=' || c == '!' || c == '<' || c == '>'
    || c == '&' || c == '|' || c == '^'
  }

  /** Whether there is a case depends on the first character alone, and two characters stay two whatever follows. */
  lemma OperatorStarts(c1: char, c2: char, c3: char)
    ensures Operator(c1, c2, c3).0 != Null <==> StartsOperator(c1)
    ensures Operator(c1, c2, ' ').1 >= 2 ==> Operator(c1, c2, c3).1 >= 2
  {
  }

  /** What is munched are the letters of its type. */
  lemma MunchLetters(c1: char, c2: char, c3: char)
    requires Munch(c1, c2, c3).0 != Null
    ensures var (t, n) := Munch(c1, c2, c3); MunchedIs(t, n, c1, c2, c3)
  {
    hide LettersOf, Operator, Lone;
    if Lone(c1) != Null {
      LoneStarts(c1);
      if StartsBracket(c1) {
        BracketLetters(c1);
      } else {
        MarkLetters(c1);
      }
    } else {
      OperatorStarts(c1, c2, c3);
      if c1 == '&' || c1 == '|' || c1 == '^' {
        BitwiseLetters(c1, c2, c3);
      } else if c1 == '=' || c1 == '!' || c1 == '<' || c1 == '>' {
        ComparisonLetters(c1, c2, c3);
      } else {
        SignLetters(c1, c2, c3);
      }
    }
  }

  /** The letters of a type come first. */
  predicate Ahead(t: TokenType, c1: char, c2: char, c3: char) {
    match LettersOf(t)
    case Unspelled => false
    case One(c) => c == c1
    case Two(c, d) => c == c1 && d == c2
    case Three(c, d, e) => c == c1 && d == c2 && e == c3
  }

  predicate IsBracket(t: TokenType) {
    || t.OpenParen? || t.CloseParen? || t.OpenBracket? || t.CloseBracket? || t.OpenBrace? || t.CloseBrace?
  }

  predicate IsMark(t: TokenType) {
    || t.Semicolon? || t.QuestionMark? || t.Colon? || t.Comma? || t.BackwardSlash? || t.BackwardApostrophe?
    || t.Quote? || t.Apostrophe? || t.AtSign? || t.BitwiseNot?
  }

  predicate IsSingleOperator(t: TokenType) {
    || t.Less? || t.Greater? || t.Equal? || t.Plus? || t.Minus? || t.Asterisk? || t.Divide?
    || t.Modulo? || t.LogicalNot? || t.BitwiseAnd? || t.BitwiseOr? || t.BitwiseXor? || t.Dot?
  }

  lemma BracketAgain(t: TokenType)
    requires IsBracket(t)
    ensures LettersOf(t).One? && Lone(LettersOf(t).c) == t
  {
  }

  lemma MarkAgain(t: TokenType)
    requires IsMark(t)
    ensures LettersOf(t).One? && Lone(LettersOf(t).c) == t
  {
  }

  lemma SingleAgain(t: TokenType, c2: char, c3: char)
    requires IsSingleOperator(t) && (c2 == ' ' || c2 == '\0')
    ensures LettersOf(t).One? && Lone(LettersOf(t).c) == Null && Operator(LettersOf(t).c, c2, c3) == (t, 1)
  {
  }

  lemma OneIsEither(t: TokenType)
    requires LettersOf(t).One?
    ensures t != Null && (IsBracket(t) || IsMark(t) || IsSingleOperator(t))
  {
  }

  lemma AloneOne(t: TokenType, c2: char, c3: char)
    requires LettersOf(t).One? && (c2 == ' ' || c2 == '\0')
    ensures t != Null && Munch(LettersOf(t).c, c2, c3) == (t, 1)
  {
    OneIsEither(t);
    hide LettersOf, Lone, Operator;
    if IsBracket(t) {
      BracketAgain(t);
    } else if IsMark(t) {
      MarkAgain(t);
    } else {
      SingleAgain(t, c2, c3);
    }
  }

  predicate IsSignPair(t: TokenType) {
    || t.DivideGreater? || t.Increment? || t.Decrement? || t.AddEqual? || t.SubtractEqual? || t.MultiplyEqual?
    || t.DivideEqual? || t.ModuloEqual? || t.Arrow?
  }

  predicate IsOtherPair(t: TokenType) {
    || t.EqualEqual? || t.NotEqual? || t.GreaterEqual? || t.LessEqual? || t.BitwiseAndEqual? || t.BitwiseOrEqual?
    || t.BitwiseXorEqual? || t.LogicalAnd? || t.LogicalOr? || t.BitwiseLeftShift? || t.BitwiseRightShift?
  }

  lemma SignPairAgain(t: TokenType, c3: char)
    requires IsSignPair(t) && (c3 == ' ' || c3 == '\0')
    ensures LettersOf(t).Two? && Lone(LettersOf(t).c) == Null
    ensures Operator(LettersOf(t).c, LettersOf(t).d, c3) == (t, 2)
  {
  }

  lemma OtherPairAgain(t: TokenType, c3: char)
    requires IsOtherPair(t) && (c3 == ' ' || c3 == '\0')
    ensures LettersOf(t).Two? && Lone(LettersOf(t).c) == Null
    ensures Operator(LettersOf(t).c, LettersOf(t).d, c3) == (t, 2)
  {
  }

  lemma TwoIsEither(t: TokenType)
    requires LettersOf(t).Two?
    ensures t != Null && (IsSignPair(t) || IsOtherPair(t))
  {
  }

  lemma AloneTwo(t: TokenType, c3: char)
    requires LettersOf(t).Two? && (c3 == ' ' || c3 == '\0')
    ensures t != Null && Munch(LettersOf(t).c, LettersOf(t).d, c3) == (t, 2)
  {
    TwoIsEither(t);
    hide LettersOf, Lone, Operator;
    if IsSignPair(t) {
      SignPairAgain(t, c3);
    } else {
      OtherPairAgain(t, c3);
    }
  }

  lemma AloneThree(t: TokenType)
    requires LettersOf(t).Three?
    ensures t != Null && Munch(LettersOf(t).c, LettersOf(t).d, LettersOf(t).e) == (t, 3)
  {
  }

  lemma AloneIs(t: TokenType, c1: char, c2: char, c3: char)
    requires Ahead(t, c1, c2, c3)
    requires LettersOf(t).One? ==> c2 == ' ' || c2 == '\0'
    requires LettersOf(t).Two? ==> c3 == ' ' || c3 == '\0'
    ensures t != Null && Munch(c1, c2, c3) == (t, LetterCount(LettersOf(t)))
  {
    hide LettersOf, Munch;
    match LettersOf(t)
    case One(_) => AloneOne(t, c2, c3);
    case Two(_, _) => AloneTwo(t, c3);
    case Three(_, _, _) => AloneThree(t);
  }

  lemma MunchCovers(t: TokenType, c1: char, c2: char, c3: char)
    requires Ahead(t, c1, c2, c3)
    ensures Munch(c1, c2, c3).0 != Null
    ensures LettersOf(t).Two? ==> Munch(c1, c2, c3).1 >= 2
    ensures LettersOf(t).Three? ==> Munch(c1, c2, c3).1 >= 3
  {
    hide Operator, Lone, LettersOf;
    match LettersOf(t)
    case One(_) =>
      AloneIs(t, c1, ' ', ' ');
      OperatorStarts(c1, ' ', ' ');
      OperatorStarts(c1, c2, c3);
    case Two(_, _) =>
      AloneIs(t, c1, c2, ' ');
      OperatorStarts(c1, c2, ' ');
      OperatorStarts(c1, c2, c3);
    case Three(_, _, _) =>
      AloneIs(t, c1, c2, c3);
  }
}

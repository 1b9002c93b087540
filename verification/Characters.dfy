/** Character classes, and strings as the lexer sees them: followed by zeros without end. */
module Characters {
  import opened Tokens

  const ETX: char := 3 as char
  const EOF: char := 255 as char

  /** A byte read as a signed `char`. */
  function Signed(c: char): int {
    if c as int < 128 then c as int else c as int - 256
  }

  /** `is_invalid_char`. */
  predicate IsInvalidChar(c: char) {
    var n := Signed(c);
    n <= 0 || 1 <= n <= 2 || 4 <= n <= 8 || 14 <= n <= 31 || n >= 127
  }

  /** `is_whitespace_char`. */
  predicate IsWhitespaceChar(c: char) {
    c == ' ' || c == '\t' || c == '\n' || c == '\r' || c == 11 as char || c == 12 as char
  }

  /** `is_punctuator_char`. */
  predicate IsPunctuatorChar(c: char) {
    var n := Signed(c);
    0x21 <= n <= 0x2F || 0x3A <= n <= 0x40 || 0x5B <= n <= 0x5E || n >= 0x7B
  }

  /** A character that neither ends the input nor is refused. */
  predicate IsText(c: char) {
    c as int < 256 && !IsInvalidChar(c) && c != ETX
  }

  predicate Clean(s: string) {
    forall i :: 0 <= i < |s| ==> IsText(s[i])
  }

  /** The bytes of text are the printable ones and the five blanks below them; these and the space are whitespace, and
      what is printed without being a letter, a digit, an underscore, a backquote or a space is punctuation. */
  lemma TextIs(c: char)
    requires c as int < 256
    ensures IsText(c) <==> 9 <= c as int <= 13 || 32 <= c as int <= 126
    ensures IsInvalidChar(c) <==> !IsText(c) && c as int != 3
    ensures IsWhitespaceChar(c) <==> 9 <= c as int <= 13 || c as int == 32
    ensures IsText(c) ==> (IsPunctuatorChar(c) != (9 <= c as int <= 13 || c == ' ' || c == '_' || c == '`' ||
      'a' <= c <= 'z' || 'A' <= c <= 'Z' || '0' <= c <= '9'))
    ensures !(IsWhitespaceChar(c) && IsPunctuatorChar(c))
  {
  }

  // ---------------------------------------------------------------- strings with zeros behind

  function At(s: string, i: nat): char {
    if i < |s| then s[i] else '\0'
  }

  function Drop(s: string, n: nat): string {
    if n <= |s| then s[n..] else ""
  }

  /** The next `n` characters. */
  function Take(s: string, n: nat): (r: string)
    ensures |r| == n
    ensures forall i :: 0 <= i < n ==> r[i] == At(s, i)
  {
    seq(n, i requires 0 <= i => At(s, i))
  }

  lemma TakeMore(s: string, m: nat, n: nat)
    ensures Take(s, m) + Take(Drop(s, m), n) == Take(s, m + n)
    ensures Drop(Drop(s, m), n) == Drop(s, m + n)
  {
  }

  lemma TakeWithin(s: string, n: nat)
    requires n <= |s|
    ensures Take(s, n) == s[..n] && Drop(s, n) == s[n..]
  {
  }

  // ---------------------------------------------------------------- positions

  /** What `deque` does to the line and the column. */
  function Step(p: Position, c: char): Position {
    if c == '\n' then Position(p.line + 1, 0) else Position(p.line, p.column + 1)
  }

  function Advance(p: Position, s: string): Position
    decreases |s|
  {
    if s == "" then p else Advance(Step(p, s[0]), s[1..])
  }

  lemma {:induction false} AdvanceConcat(p: Position, s: string, t: string)
    ensures Advance(p, s + t) == Advance(Advance(p, s), t)
    decreases |s|
  {
    if s == "" {
      assert s + t == t;
    } else {
      assert (s + t)[1..] == s[1..] + t;
      AdvanceConcat(Step(p, s[0]), s[1..], t);
    }
  }

  lemma AdvanceOne(p: Position, s: string, c: char)
    ensures Advance(p, s + [c]) == Step(Advance(p, s), c)
  {
    AdvanceConcat(p, s, [c]);
    assert Advance(Advance(p, s), [c]) == Advance(Step(Advance(p, s), c), [c][1..]);
  }

  function Newlines(s: string): nat {
    if s == "" then 0 else Newlines(s[..|s| - 1]) + if s[|s| - 1] == '\n' then 1 else 0
  }

  /** Characters behind the last line break. */
  function SinceNewline(s: string): nat {
    if s == "" || s[|s| - 1] == '\n' then 0 else SinceNewline(s[..|s| - 1]) + 1
  }

  /** From the start of the input, the line is one more than the line breaks passed, and the column counts
      from the last of them. */
  lemma {:induction false} PositionMeans(s: string)
    ensures Advance(Position(1, 0), s) == Position(1 + Newlines(s), SinceNewline(s))
  {
    if s != "" {
      var init := s[..|s| - 1];
      PositionMeans(init);
      assert s == init + [s[|s| - 1]];
      AdvanceOne(Position(1, 0), init, s[|s| - 1]);
    }
  }

  /** Where nothing breaks the line, the column counts on. */
  lemma {:induction false} SameLine(p: Position, s: string)
    requires '\n' !in s
    ensures Advance(p, s) == Position(p.line, p.column + |s|)
    decreases |s|
  {
    if s != "" {
      SameLine(Step(p, s[0]), s[1..]);
    }
  }

  /** Behind a line break, the line is the next one, and the column counts from the break. */
  lemma NextLine(p: Position, a: string, b: string)
    requires '\n' !in b
    ensures Advance(p, a + "\n" + b) == Position(Advance(p, a).line + 1, |b|)
  {
    AdvanceConcat(p, a + "\n", b);
    AdvanceOne(p, a, '\n');
    SameLine(Advance(p, a + "\n"), b);
  }

  // ---------------------------------------------------------------- runs of one class

  datatype Class = Blank | Word

  /** What `lex_whitespaces` and `lex_identifier_or_keyword` go on over. */
  predicate In(k: Class, c: char) {
    match k
    case Blank => IsWhitespaceChar(c)
    case Word => !IsWhitespaceChar(c) && !IsPunctuatorChar(c)
  }

  function Span(k: Class, s: string): (n: nat)
    ensures n <= |s|
  {
    if s != "" && In(k, s[0]) then 1 + Span(k, s[1..]) else 0
  }

  predicate AllIn(k: Class, s: string) {
    forall i :: 0 <= i < |s| ==> In(k, s[i])
  }

  /** A span is the longest run at the front. */
  lemma {:induction false} SpanIs(k: Class, s: string)
    ensures AllIn(k, s[..Span(k, s)])
    ensures Span(k, s) < |s| ==> !In(k, s[Span(k, s)])
  {
    if s != "" && In(k, s[0]) {
      SpanIs(k, s[1..]);
      assert forall i :: 1 <= i < Span(k, s) ==> s[i] == s[1..][..Span(k, s[1..])][i - 1];
    }
  }

  /** In bytes: the span of blanks is the longest front of spaces and of the five blanks below them. */
  lemma BlanksAre(s: string)
    ensures var n := Span(Blank, s);
      && n <= |s| && (forall i :: 0 <= i < n ==> 9 <= s[i] as int <= 13 || s[i] as int == 32)
      && (n < |s| ==> !(9 <= s[n] as int <= 13 || s[n] as int == 32))
  {
    hide In, IsWhitespaceChar;
    SpanIs(Blank, s);
    var n := Span(Blank, s);
    if n < |s| {
      BlankIs(s[n]);
    }
    forall i | 0 <= i < n ensures 9 <= s[i] as int <= 13 || s[i] as int == 32 {
      assert s[..n][i] == s[i];
      BlankIs(s[i]);
    }
  }

  lemma BlankIs(c: char)
    ensures In(Blank, c) <==> 9 <= c as int <= 13 || c as int == 32
  {
  }

  lemma {:induction false} SpanUnique(k: Class, a: string, b: string)
    requires AllIn(k, a) && (b == "" || !In(k, b[0]))
    ensures Span(k, a + b) == |a|
  {
    if a == "" {
      assert a + b == b;
    } else {
      assert (a + b)[1..] == a[1..] + b;
      SpanUnique(k, a[1..], b);
    }
  }
}

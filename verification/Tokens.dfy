/** The layout of tokens in an arena, and the walk over them. */
module Tokens {
  import opened Arena

  /** A place in the input. */
  datatype Position = Position(line: int, column: int)

  datatype Token = Token(tokenType: nat, at: Position, text: string)

  /** `sizeof(struct token)`, which is also the offset of the text. */
  const HEADER: nat := 16
  const WORD: nat := 0x1_0000_0000
  /** Signed fields hold numbers below this. */
  const HALF: int := 0x8000_0000

  // ---------------------------------------------------------------- 32-bit fields

  /** The bytes of a 32-bit field, lowest first; of a negative number in two's complement. */
  function Word(x: int): (r: string)
    ensures |r| == 4
  {
    [(x % 256) as char, (x / 256 % 256) as char, (x / 65536 % 256) as char, (x / 16777216 % 256) as char]
  }

  function OfWord(s: string): nat
    requires |s| == 4
  {
    s[0] as nat + 256 * s[1] as nat + 65536 * s[2] as nat + 16777216 * s[3] as nat
  }

  /** A field read as `I32`. */
  function Int32(s: string): int
    requires |s| == 4
  {
    if OfWord(s) < HALF then OfWord(s) else OfWord(s) - WORD
  }

  /** Whatever is written, its lowest 32 bits are read. */
  lemma WordIs(x: int)
    ensures OfWord(Word(x)) == x % WORD
  {
    var a := x / 256;
    var b := a / 256;
    var c := b / 256;
    assert x / 65536 == b && x / 16777216 == c;
    assert x == 256 * a + x % 256 && a == 256 * b + a % 256 && b == 256 * c + b % 256 && c == 256 * (c / 256) + c % 256;
    ModWord(x, c / 256, OfWord(Word(x)));
  }

  lemma ModWord(x: int, q: int, r: nat)
    requires x == WORD * q + r && r < WORD
    ensures x % WORD == r && x / WORD == q
  {
  }

  /** A number reads back from a signed field exactly if 31 bits and a sign hold it. */
  lemma Int32ReadsBackIff(x: int)
    ensures Int32(Word(x)) == x <==> -HALF <= x < HALF
    ensures HALF <= x < WORD ==> Int32(Word(x)) == x - WORD
  {
    WordIs(x);
    hide Word, OfWord;
    if 0 <= x < WORD {
      ModWord(x, 0, x);
    } else if -HALF <= x < 0 {
      ModWord(x, -1, x + WORD);
    }
  }

  /** It reads back from an unsigned one exactly if 32 bits hold it. */
  lemma WordRoundTrip(x: int)
    ensures OfWord(Word(x)) == x <==> 0 <= x < WORD
  {
    WordIs(x);
    hide Word, OfWord;
    if 0 <= x < WORD {
      ModWord(x, 0, x);
    }
  }

  // ---------------------------------------------------------------- layout

  /** The four fields in front of the text. */
  function Fields(tokenType: nat, at: Position, len: int): (r: string)
    ensures |r| == HEADER
  {
    Word(tokenType) + Word(at.line) + Word(at.column) + Word(len)
  }

  function Header(t: Token): (r: string)
    ensures |r| == HEADER
  {
    Fields(t.tokenType, t.at, |t.text|)
  }

  function Bytes(t: Token): string {
    Header(t) + t.text + "\0"
  }

  /** Byte by byte: type, line, column and length of the text in four bytes each, the lowest first, the text behind
      them, and a zero. */
  lemma LayoutIs(t: Token)
    ensures |Bytes(t)| == 17 + |t.text| && Bytes(t)[16..16 + |t.text|] == t.text && Bytes(t)[16 + |t.text|] == '\0'
    ensures forall k :: 0 <= k < 4 ==>
      Bytes(t)[4 * k] as int + 256 * Bytes(t)[4 * k + 1] as int + 65536 * Bytes(t)[4 * k + 2] as int +
        16777216 * Bytes(t)[4 * k + 3] as int == [t.tokenType, t.at.line, t.at.column, |t.text|][k] % 0x1_0000_0000
  {
    WordIs(t.tokenType);
    WordIs(t.at.line);
    WordIs(t.at.column);
    WordIs(|t.text|);
    HeaderSlices(t);
    hide Word;
    forall k | 0 <= k < 4
      ensures Bytes(t)[4 * k..4 * k + 4] == Word([t.tokenType, t.at.line, t.at.column, |t.text|][k])
    {
      assert Bytes(t)[4 * k..4 * k + 4] == Header(t)[4 * k..4 * k + 4];
    }
  }

  function Packed(ts: seq<Token>): string {
    if ts == [] then "" else Bytes(ts[0]) + Packed(ts[1..])
  }

  /** The fields of the token hold it: those of the position and the length of the text are signed. */
  predicate Fits(t: Token) {
    && t.tokenType < WORD && |t.text| < HALF
    && -HALF <= t.at.line < HALF && -HALF <= t.at.column < HALF
  }

  lemma {:induction false} PackedAppend(ts: seq<Token>, t: Token)
    ensures Packed(ts + [t]) == Packed(ts) + Bytes(t)
  {
    if ts == [] {
      assert ts + [t] == [t] && [t][1..] == [];
    } else {
      assert (ts + [t])[1..] == ts[1..] + [t];
      PackedAppend(ts[1..], t);
    }
  }

  // ---------------------------------------------------------------- reading

  function FieldAt(data: string, off: nat): nat
    requires off + 4 <= |data|
  {
    OfWord(data[off..off + 4])
  }

  function SignedAt(data: string, off: nat): int
    requires off + 4 <= |data|
  {
    Int32(data[off..off + 4])
  }

  /** A whole token stands at `off`. */
  predicate Readable(data: string, off: nat) {
    off + HEADER <= |data| && off + HEADER < TokensNext(data, off) <= |data|
  }

  /** `tokens_arena_begin`. */
  const TOKENS_BEGIN: nat := RESERVED

  /** `tokens_arena_next`, as offsets from the start of the buffer. */
  function TokensNext(data: string, off: nat): int
    requires off + HEADER <= |data|
  {
    off + HEADER + SignedAt(data, off + 12) + 1
  }

  function TokenAt(data: string, off: nat): Token
    requires Readable(data, off)
  {
    Token(FieldAt(data, off), Position(SignedAt(data, off + 4), SignedAt(data, off + 8)),
      data[off + HEADER..off + HEADER + SignedAt(data, off + 12)])
  }

  /** Slices of a part of a sequence are slices of the whole. */
  lemma SliceInside(pre: string, mid: string, post: string, a: nat, b: nat)
    requires a <= b <= |mid|
    ensures (pre + mid + post)[|pre| + a..|pre| + b] == mid[a..b]
  {
  }

  lemma HeaderSlices(t: Token)
    ensures Header(t)[0..4] == Word(t.tokenType) && Header(t)[4..8] == Word(t.at.line)
    ensures Header(t)[8..12] == Word(t.at.column) && Header(t)[12..16] == Word(|t.text|)
  {
  }

  /** What is read at a packed token, whatever its fields hold. */
  lemma {:induction false} WhatIsRead(pre: string, t: Token, post: string)
    ensures var data := pre + Bytes(t) + post;
      && FieldAt(data, |pre|) == OfWord(Word(t.tokenType))
      && SignedAt(data, |pre| + 4) == Int32(Word(t.at.line)) && SignedAt(data, |pre| + 8) == Int32(Word(t.at.column))
      && TokensNext(data, |pre|) == |pre| + HEADER + Int32(Word(|t.text|)) + 1
      && data[|pre| + HEADER..|pre| + HEADER + |t.text|] == t.text
  {
    var data := pre + Bytes(t) + post;
    HeaderSlices(t);
    hide Word, OfWord, Int32, Header;
    forall a: nat, b: nat | a <= b <= HEADER ensures data[|pre| + a..|pre| + b] == Header(t)[a..b] {
      SliceInside(pre, Bytes(t), post, a, b);
      assert Bytes(t)[a..b] == Header(t)[a..b];
    }
    assert data[|pre| + 0..|pre| + 4] == Header(t)[0..4];
    assert data[|pre| + 4..|pre| + 8] == Header(t)[4..8];
    assert data[|pre| + 8..|pre| + 12] == Header(t)[8..12];
    assert data[|pre| + 12..|pre| + 16] == Header(t)[12..16];
    SliceInside(pre, Bytes(t), post, HEADER, HEADER + |t.text|);
    assert Bytes(t)[HEADER..HEADER + |t.text|] == t.text;
  }

  /** A token reads back as it was written, with the next one behind its last byte, exactly if its fields hold it. */
  lemma ReadsBackIff(pre: string, t: Token, post: string)
    ensures var data := pre + Bytes(t) + post;
      (Readable(data, |pre|) && TokenAt(data, |pre|) == t && TokensNext(data, |pre|) == |pre| + |Bytes(t)|) <==> Fits(t)
  {
    WhatIsRead(pre, t, post);
    WordRoundTrip(t.tokenType);
    Int32ReadsBackIff(t.at.line);
    Int32ReadsBackIff(t.at.column);
    Int32ReadsBackIff(|t.text|);
    hide Word, OfWord, Int32, Header, FieldAt, SignedAt, Fields;
  }

  /** From a token with a text of `2^31` to `2^32` characters the walk goes back. */
  lemma LongTextWalksBack(pre: string, t: Token, post: string)
    requires HALF <= |t.text| < WORD
    ensures TokensNext(pre + Bytes(t) + post, |pre|) == |pre| + |Bytes(t)| - WORD
    ensures TokensNext(pre + Bytes(t) + post, |pre|) <= |pre| + HEADER
  {
    WhatIsRead(pre, t, post);
    Int32ReadsBackIff(|t.text|);
    hide Word, OfWord, Int32, Header, FieldAt, SignedAt, Fields;
  }

  /** From one with two gigabytes of text, far in front of the buffer. */
  lemma TwoGigabytesDoNotReadBack(pre: string, post: string)
    ensures var t := Token(1, Position(1, 0), seq(HALF, _ => 'a'));
      !Fits(t) && TokensNext(pre + Bytes(t) + post, |pre|) == |pre| + HEADER + 1 - HALF
  {
    LongTextWalksBack(pre, Token(1, Position(1, 0), seq(HALF, _ => 'a')), post);
  }

  // ---------------------------------------------------------------- the walk

  /** All tokens from `off` to `tokens_arena_end`, if the walk gets there. */
  function WalkFrom(data: string, off: nat): (r: (seq<Token>, nat))
    decreases if off <= |data| then |data| - off else 0
  {
    if off >= |data| || !Readable(data, off) then ([], off)
    else
      var rest := WalkFrom(data, TokensNext(data, off));
      ([TokenAt(data, off)] + rest.0, rest.1)
  }

  lemma WalkStep(data: string, off: nat, t: Token, next: nat, ts: seq<Token>, end: nat)
    requires off < |data| && Readable(data, off) && TokenAt(data, off) == t && TokensNext(data, off) == next
    requires WalkFrom(data, next) == (ts, end)
    ensures WalkFrom(data, off) == ([t] + ts, end)
  {
  }

  /** The walk visits exactly the tokens that were packed, in order, and lands exactly on the end. */
  lemma {:induction false} WalkVisits(pre: string, ts: seq<Token>)
    requires forall t :: t in ts ==> Fits(t)
    ensures WalkFrom(pre + Packed(ts), |pre|) == (ts, |pre + Packed(ts)|)
    decreases |ts|
  {
    hide *;
    var data := pre + Packed(ts);
    if ts == [] {
      NothingPacked(data);
    } else {
      JoinPacked(pre, ts);
      ReadsBackIff(pre, ts[0], Packed(ts[1..]));
      WalkVisits(pre + Bytes(ts[0]), ts[1..]);
      WalkStep(data, |pre|, ts[0], |pre| + |Bytes(ts[0])|, ts[1..], |data|);
    }
  }

  lemma NothingPacked(data: string)
    ensures Packed([]) == "" && WalkFrom(data, |data|) == ([], |data|)
  {
  }

  lemma JoinPacked(pre: string, ts: seq<Token>)
    requires ts != []
    ensures pre + Packed(ts) == pre + Bytes(ts[0]) + Packed(ts[1..])
    ensures ts == [ts[0]] + ts[1..] && |Bytes(ts[0])| > 0
  {
    assert Packed(ts) == Bytes(ts[0]) + Packed(ts[1..]);
    assert |Bytes(ts[0])| > 0;
    hide *;
    Associative(pre, Bytes(ts[0]), Packed(ts[1..]));
  }

  lemma Associative(a: string, b: string, c: string)
    ensures a + (b + c) == a + b + c
  {
  }

  /** The loop over the tokens of an arena: from `tokens_arena_begin` by `tokens_arena_next` up to
      `tokens_arena_end`. */
  method AllTokens(arena: MArena, ghost ts: seq<Token>) returns (out: seq<Token>)
    requires arena.Valid() && !arena.IsOpen() && forall t :: t in ts ==> Fits(t)
    requires arena.Committed()[RESERVED..] == Packed(ts)
    ensures out == ts
  {
    var data := arena.Committed();
    out := [];
    var off := TOKENS_BEGIN;
    WalkOfCommitted(data, ts);
    hide *;
    while off < |data|
      invariant off <= |data|
      invariant out + WalkFrom(data, off).0 == ts && WalkFrom(data, off).1 == |data|
      decreases |data| - off
    {
      WalkGoesOn(data, off);
      out := out + [TokenAt(data, off)];
      off := TokensNext(data, off);
    }
    WalkIsOver(data, off);
  }

  lemma WalkOfCommitted(data: string, ts: seq<Token>)
    requires |data| >= RESERVED && data[RESERVED..] == Packed(ts) && forall t :: t in ts ==> Fits(t)
    ensures WalkFrom(data, RESERVED) == (ts, |data|)
  {
    hide Packed, WalkFrom;
    assert data == data[..RESERVED] + Packed(ts);
    WalkVisits(data[..RESERVED], ts);
  }

  lemma WalkGoesOn(data: string, off: nat)
    requires off < |data| && WalkFrom(data, off).1 == |data|
    ensures Readable(data, off) && off < TokensNext(data, off) <= |data|
    ensures WalkFrom(data, off).0 == [TokenAt(data, off)] + WalkFrom(data, TokensNext(data, off)).0
    ensures WalkFrom(data, TokensNext(data, off)).1 == |data|
  {
  }

  lemma WalkIsOver(data: string, off: nat)
    requires off >= |data|
    ensures WalkFrom(data, off).0 == []
  {
  }
}

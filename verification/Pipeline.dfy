/** From the bytes of a file to the tokens read back from the arena. */
module Pipeline {
  import opened Arena
  import opened Tokens
  import opened Streams
  import opened Staging
  import opened Characters
  import opened Gates
  import opened TokenTable
  import opened Scanning
  import opened Punctuators
  import opened Tokenising
  import opened Turns
  import opened Lexer

  // ---------------------------------------------------------------- field widths

  lemma {:induction false} AdvanceBounds(p: Position, s: string)
    ensures p.line <= Advance(p, s).line <= p.line + |s|
    ensures p.column >= 0 ==> 0 <= Advance(p, s).column <= p.column + |s|
    decreases |s|
  {
    if s != "" {
      AdvanceBounds(Step(p, s[0]), s[1..]);
    }
  }

  lemma CodesFit(t: TokenType)
    ensures Code(t) < 62
  {
  }

  /** Neither lines nor columns can leave their fields before the end of the input. */
  predicate Bounded(p: Point) {
    0 <= p.at.line && 0 <= p.at.column && p.at.line + |p.rest| < HALF && p.at.column + |p.rest| < HALF
  }

  lemma CutWithin(r: string, g: Gate)
    requires r != ""
    ensures var c := CutFirst(r, g); c.n <= |r| && |c.text| <= c.n
  {
    var g1 := Look(g, r, 1);
    RunIs(Blank, r, g1);
    RunIs(Word, r, g1);
    hide RunOf;
    if MunchAt(r).0 == Null {
      NullCountsNothing(r);
    } else {
      MunchIsSpelled(r);
    }
    hide MunchAt;
  }

  lemma BoundedOn(p: Point, n: nat, staged: nat)
    requires Bounded(p) && n <= |p.rest|
    ensures Bounded(Point(p.rest[n..], Advance(p.at, p.rest[..n]), staged))
  {
    AdvanceBounds(p.at, p.rest[..n]);
  }

  lemma TurnFits(p: Point, eat: bool)
    requires Bounded(p) && TurnAt(p, eat).Makes?
    ensures Fits(TurnAt(p, eat).token) && Bounded(TurnAt(p, eat).next)
  {
    var s := Skip(p.rest, p.staged, eat);
    var r, q := p.rest[s.n..], Advance(p.at, p.rest[..s.n]);
    BoundedOn(p, s.n, 0);
    var c := CutFirst(r, s.gate);
    CutWithin(r, s.gate);
    BoundedOn(Point(r, q, 0), c.n, c.gate.staged);
    TakeWithin(r, c.n);
    CodesFit(c.kind);
    hide Skip, CutFirst, Advance, Code;
  }

  /** Tokens of inputs below two gigabytes fit into the fields. */
  lemma {:induction false} TokensFit(p: Point, eat: bool, n: nat)
    requires Bounded(p)
    ensures forall t :: t in Cuts(p, eat, n) ==> Fits(t)
    decreases n
  {
    hide TurnAt, Fits, Bounded;
    if n > 0 && TurnAt(p, eat).Makes? {
      TurnFits(p, eat);
      TokensFit(TurnAt(p, eat).next, eat, n - 1);
    }
  }

  // ---------------------------------------------------------------- the whole way

  /** A file is lexed through either ring and whatever refills, and the tokens are walked in the arena.  They are what
      calls cut off the file, up to its end unless memory runs out or an invalid byte stops them. */
  method LexFile(contents: string, wrapping: Wrapping, eat: bool, arena: MArena)
    returns (complete: bool, out: seq<Token>)
    requires |contents| + 1 < HALF
    requires arena.Valid() && !arena.IsOpen() && |arena.Committed()| == RESERVED
    modifies arena
    ensures var p := Point(contents, Position(1, 0), 0);
      && out == Cuts(p, eat, |out|) && (complete ==> AreAll(p, eat, out))
      && (Clean(contents) && Roomy(p, eat, LeftIn(old(arena.StoreNow()))) ==> complete)
  {
    var stream := new IStream(contents);
    var lexer := new LexerState(stream, wrapping, eat);
    ghost var p, c := lexer.Stand(), arena.Committed();
    assert p == Point(contents, Position(1, 0), 0);
    ghost var ts;
    hide Cuts, AreAll, Roomy, Fits, Clean, LexerState.Valid;
    complete, ts := lexer.Tokenise(arena);
    TokensFit(p, eat, |ts|);
    assert arena.Committed()[RESERVED..] == Packed(ts);
    out := AllTokens(arena, ts);
  }

  /** What comes back from a file of valid characters with a case is a front of its tokens, or, if the loop gets
      through, all of them, which it does if the arena has room; with whitespace tokens their texts then join to the
      file. */
  lemma LexedIs(contents: string, eat: bool, room: int, complete: bool, out: seq<Token>)
    requires Clean(contents) && Lexable(contents)
    requires var p := Point(contents, Position(1, 0), 0);
      && out == Cuts(p, eat, |out|) && (complete ==> AreAll(p, eat, out)) && (Roomy(p, eat, room) ==> complete)
    ensures out <= TokensOf(contents, Position(1, 0), eat)
    ensures complete ==> out == TokensOf(contents, Position(1, 0), eat)
    ensures room > |Packed(TokensOf(contents, Position(1, 0), eat))| ==> complete
    ensures complete && !eat ==> Texts(out) == contents && PositionsRight(out, Position(1, 0))
  {
    var p := Point(contents, Position(1, 0), 0);
    MadeAreTokens(p, eat, out);
    RoomyIff(p, eat, room);
    TokensCover(contents, Position(1, 0));
    LosslessIff(contents, Position(1, 0));
    hide TokensOf, Clean, Lexable, PositionsRight, Texts;
  }

  // ---------------------------------------------------------------- printing and reading back

  /** A printed string literal at the front of the input is read back, and the input goes on behind it.  The
      transaction does not fail while the arena has room. */
  method ReadBackString(lexer: LexerState, arena: MArena, ghost s: string, ghost d: char, ghost tail: string)
    requires lexer.Valid() && lexer.staging.looked == 0 && arena.Valid() && arena.IsOpen()
    requires Trusted(lexer.GateNow(), lexer.rest)
    requires IsDelimiter(d) && (forall c :: c in s ==> Opens(c)) && lexer.rest == [d] + (Escape(s, d) + ([d] + tail))
    modifies lexer, lexer.staging, lexer.staging.buf, lexer.stream, lexer.stream.buffer, arena
    ensures lexer.Valid() && arena.Valid() && arena.IsOpen() && lexer.rest == tail && lexer.err == old(lexer.err)
    ensures arena.failed || arena.Pending() == old(arena.Pending()) + s
    ensures old(!arena.failed && arena.stagingSize + |s| < Top(arena.StoreNow())) ==> !arena.failed
  {
    ghost var store := arena.StoreNow();
    if !store.failed {
      OnesTaken(store, |s|);
    }
    hide AddTo, AddOnes;
    ghost var g := Consume(Look(lexer.GateNow(), lexer.rest, 1), 1);
    PrintedIs(lexer.rest, s, d, tail, lexer.GateNow(), Capacity(lexer.staging.wrapping));
    lexer.LexXmlStringLiteral(arena);
    NothingReported(old(lexer.err), ReadString(Drop(old(lexer.rest), 1), 0, d, g).1);
  }

  lemma NothingReported(err: set<LexerErr>, g: Gate)
    requires !g.flagged
    ensures Reported(err, g) == err && err + {} == err
  {
  }

  /** Everything that reading a printed literal asks for and comes to. */
  lemma PrintedIs(rest: string, s: string, d: char, tail: string, g: Gate, room: nat)
    requires Trusted(g, rest) && !g.flagged && (forall c :: c in s ==> Opens(c)) && room >= 2
    requires IsDelimiter(d) && rest == [d] + (Escape(s, d) + ([d] + tail))
    ensures At(rest, 0) == d && ReadFits(Drop(rest, 1), 0, d, Consume(Look(g, rest, 1), 1), room)
    ensures var (scan, g') := ReadString(Drop(rest, 1), 0, d, Consume(Look(g, rest, 1), 1));
      scan == Scan(s, Escape(s, d) + [d], Closed) && !g'.flagged
    ensures Drop(rest, |Take(rest, 1) + (Escape(s, d) + [d])|) == tail
  {
    var body, g' := Escape(s, d) + ([d] + tail), Consume(Look(g, rest, 1), 1);
    assert Drop(rest, 1) == body;
    TrustedOn(g, rest, 1);
    StringRoundTrip(s, d, tail, g');
    EscapesAreKnown(s, d, tail);
    KnownEscapesFit(body, d, g', room);
    hide Escape, ReadString, ReadFits, Trusted;
  }

  /** A single escape in a literal that is closed behind it is read as the character exactly if that is the delimiter,
      a backslash, a line break, a form feed or a tab; otherwise it is lost, and the closing delimiter stays. */
  method ReadEscape(lexer: LexerState, arena: MArena, ghost c: char, ghost d: char, ghost tail: string)
    requires lexer.Valid() && lexer.staging.looked == 0 && arena.Valid() && arena.IsOpen()
    requires Trusted(lexer.GateNow(), lexer.rest) && IsText(c)
    requires (d == '\'' || d == '"') && lexer.rest == [d] + (['\\', c, d] + tail)
    modifies lexer, lexer.staging, lexer.staging.buf, lexer.stream, lexer.stream.buffer, arena
    ensures lexer.Valid() && arena.Valid() && arena.IsOpen()
    ensures var known := c == d || c as int in {92, 10, 12, 9};
      && lexer.rest == (if known then tail else [d] + tail)
      && (arena.failed || arena.Pending() == old(arena.Pending()) + if known then [c] else "")
    ensures old(!arena.failed && arena.stagingSize + 1 < Top(arena.StoreNow())) ==> !arena.failed
  {
    ghost var store := arena.StoreNow();
    if !store.failed {
      OnesTaken(store, 1);
    }
    hide AddTo, AddOnes;
    EscapeReads(lexer.rest, c, d, tail, lexer.GateNow(), Capacity(lexer.staging.wrapping));
    lexer.LexXmlStringLiteral(arena);
  }

  lemma EscapeReads(rest: string, c: char, d: char, tail: string, g: Gate, room: nat)
    requires Trusted(g, rest) && IsText(c) && room >= 2
    requires (d == '\'' || d == '"') && rest == [d] + (['\\', c, d] + tail)
    ensures var known := c == d || c as int in {92, 10, 12, 9};
      var g' := Consume(Look(g, rest, 1), 1);
      var s := ReadString(Drop(rest, 1), 0, d, g').0;
      && At(rest, 0) == d && ReadFits(Drop(rest, 1), 0, d, g', room)
      && s == (if known then Scan([c], ['\\', c, d], Closed) else Scan("", ['\\', c], Closed))
      && Drop(rest, |Take(rest, 1) + s.used|) == if known then tail else [d] + tail
  {
    var all, g' := ['\\', c, d] + tail, Consume(Look(g, rest, 1), 1);
    assert Drop(rest, 1) == all;
    TrustedOn(g, rest, 1);
    EscapeIs(c, d, tail, g');
    EscapeFits(c, d, tail, g', room);
    hide ReadString, ReadFits, Trusted, Look;
  }

  /** So is the body of a comment. */
  method ReadBackComment(lexer: LexerState, arena: MArena, ghost body: string, ghost tail: string)
    requires lexer.Valid() && lexer.staging.looked == 0 && arena.Valid() && arena.IsOpen()
    requires Trusted(lexer.GateNow(), lexer.rest)
    requires Scannable(body) && lexer.rest == "<!--" + (body + ("-->" + tail))
    modifies lexer, lexer.staging, lexer.staging.buf, lexer.stream, lexer.stream.buffer, arena
    ensures lexer.Valid() && arena.Valid() && arena.IsOpen() && lexer.rest == tail && lexer.err == old(lexer.err)
    ensures arena.failed || arena.Pending() == old(arena.Pending()) + body
    ensures old(!arena.failed && arena.stagingSize + |body| < Top(arena.StoreNow())) ==> !arena.failed
  {
    ghost var store := arena.StoreNow();
    if !store.failed {
      OnesTaken(store, |body|);
    }
    hide AddTo, AddOnes;
    ghost var g := Consume(Look(lexer.GateNow(), lexer.rest, 4), 4);
    CommentIs(lexer.rest, body, tail, lexer.GateNow());
    lexer.LexXmlComment(arena);
    NothingReported(old(lexer.err), ReadComment(Drop(old(lexer.rest), 4), g).1);
  }

  lemma CommentIs(rest: string, body: string, tail: string, g: Gate)
    requires Trusted(g, rest) && !g.flagged && Scannable(body) && rest == "<!--" + (body + ("-->" + tail))
    ensures Take(rest, 4) == "<!--"
    ensures var (scan, g') := ReadComment(Drop(rest, 4), Consume(Look(g, rest, 4), 4));
      scan == Scan(body, body + "-->", Closed) && !g'.flagged
    ensures Drop(rest, |"<!--" + (body + "-->")|) == tail
  {
    assert Drop(rest, 4) == body + ("-->" + tail);
    assert At(rest, 0) == '<' && At(rest, 1) == '!' && At(rest, 2) == '-' && At(rest, 3) == '-';
    TrustedOn(g, rest, 4);
    CommentReadIff(body, tail, Consume(Look(g, rest, 4), 4));
  }
}

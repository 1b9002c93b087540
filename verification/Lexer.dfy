/** The lexer: characters from a stream, looked at through the staging area, become tokens in an arena. */
module Lexer {
  import opened Options
  import opened Arena
  import opened Tokens
  import opened Streams
  import opened Staging
  import opened Characters
  import opened Gates
  import opened Lookahead
  import opened TokenTable
  import opened Punctuators
  import opened Scanning
  import opened Tokenising
  import opened Turns

  datatype LexerErr = OutOfMem | InvalidInputBytes | InvalidConstantLiteral | InvalidString | PrematureEndOfString

  /** The errors behind a gate. */
  function Reported(err: set<LexerErr>, g: Gate): set<LexerErr> {
    if g.flagged then err + {InvalidInputBytes} else err
  }

  class LexerState {
    const staging: StagingArea
    const stream: IStream
    var emittedCnt: nat
    var lineNum: nat
    var column: nat
    var err: set<LexerErr>
    var eatWhitespaces: bool
    /** The input that is not consumed yet, and the zeros staged behind its end. */
    ghost var rest: string
    ghost var pads: nat

    ghost predicate Valid()
      reads this`rest, this`pads, staging, staging.buf, stream, stream.buffer
    {
      && staging.Valid() && stream.Valid() && staging.buf != stream.buffer
      && Holds(staging.staged, stream.Rest(), rest, pads)
    }

    function Pos(): Position
      reads this`lineNum, this`column
    {
      Position(lineNum, column)
    }

    /** Nothing keeps `lex_emit` from emitting. */
    predicate Emits()
      reads this`err
    {
      OutOfMem !in err && InvalidInputBytes !in err
    }

    ghost function GateNow(): Gate
      reads this`err, staging
    {
      Gate(|staging.staged|, Emits(), InvalidInputBytes in err)
    }

    ghost function See(arena: MArena): View
      requires arena.Valid() && arena.IsOpen()
      reads this, arena, staging
    {
      View(rest, Pos(), emittedCnt, arena.Committed(), arena.Pending(), arena.StoreNow(), GateNow())
    }

    /** `lexer_init`. */
    constructor (stream: IStream, wrapping: Wrapping, eatWhitespaces: bool)
      requires stream.Valid()
      ensures Valid() && rest == stream.Rest() && staging.looked == 0 && staging.staged == "" && Pos() == Position(1, 0)
      ensures this.stream == stream && this.eatWhitespaces == eatWhitespaces && fresh(staging) && fresh(staging.buf)
    {
      staging := new StagingArea(wrapping);
      this.stream := stream;
      emittedCnt, lineNum, column, err := 0, 1, 0, {};
      this.eatWhitespaces := eatWhitespaces;
      rest, pads := stream.Rest(), 0;
    }

    // -------------------------------------------------------------- characters

    /** `is_end`. */
    method IsEnd() returns (r: bool)
      requires Valid()
      ensures r <==> EndsAt(GateNow(), rest)
      ensures r == (rest == "" || rest[0] as int in {0, 255} || (staging.staged == "" && rest[0] as int == 3))
    {
      if staging.IsEmpty() {
        HoldsEmpty(stream.Rest(), rest, pads);
        var peeked, c := stream.PeekByte('\0');
        r := !peeked || c == EOF || c == ETX || c == '\0';
      } else {
        HoldsAt(staging.staged, stream.Rest(), rest, pads, 0);
        var c := staging.PeekFirst();
        r := c == EOF || c == '\0';
      }
    }

    /** `next`: the character `looked` places ahead. */
    method Next() returns (c: char)
      requires Valid() && staging.looked < Capacity(staging.wrapping)
      modifies this`pads, this`err, staging, staging.buf, stream, stream.buffer
      ensures Valid() && c == At(rest, old(staging.looked))
      ensures staging.looked == old(staging.looked) + 1 <= |staging.staged|
      ensures GateNow() == Look(old(GateNow()), rest, staging.looked) && err == Reported(old(err), GateNow())
      ensures var n := c as int;
        var fine := old(staging.looked) < |old(staging.staged)| || n in {0, 3} || 9 <= n <= 13 || 32 <= n <= 126;
        n < 256 ==> err == old(err) + if fine then {} else {InvalidInputBytes}
    {
      if At(rest, staging.looked) as int < 256 {
        BadIs(At(rest, staging.looked));
      }
      LookOneMore(GateNow(), rest, staging.looked);
      hide Look;
      if staging.AtEnd() {
        Fetch();
      }
      c := staging.Current();
      HoldsAt(staging.staged, stream.Rest(), rest, pads, staging.looked);
      staging.Look();
    }

    /** One more character is staged: the next one of the stream, or a zero behind its end. */
    method Fetch()
      requires Valid() && |staging.staged| < Capacity(staging.wrapping)
      modifies this`pads, this`err, staging`endIt, staging`staged, staging.buf, stream, stream.buffer
      ensures Valid() && |staging.staged| == |old(staging.staged)| + 1
      ensures err == old(err) + if IsBad(At(rest, |old(staging.staged)|)) then {InvalidInputBytes} else {}
    {
      ghost var staged, unread := staging.staged, stream.Rest();
      var _, c := stream.ReadNextByte('\0');
      if c != '\0' && IsInvalidChar(c) {
        err := err + {InvalidInputBytes};
      }
      if unread == "" {
        HoldsPad(staged, rest, pads);
        pads := pads + 1;
      } else {
        HoldsRead(staged, unread, rest, pads);
      }
      staging.Enqueue(c);
    }

    /** `deque`.  Without a staged character the last byte of the stream is lost: its read reports failure. */
    method Deque() returns (c: char)
      requires Valid()
      modifies this`rest, this`pads, this`lineNum, this`column, staging, staging.buf, stream, stream.buffer
      ensures Valid() && rest == Drop(old(rest), 1)
      ensures c == if old(staging.staged) == "" && |old(rest)| == 1 then '\0' else At(old(rest), 0)
      ensures Pos() == Step(old(Pos()), c)
      ensures (lineNum, column) == if c as int == 10 then (old(lineNum) + 1, 0) else (old(lineNum), old(column) + 1)
      ensures staging.looked == if old(staging.looked) == 0 then 0 else old(staging.looked) - 1
      ensures |staging.staged| == if old(staging.staged) == "" then 0 else |old(staging.staged)| - 1
    {
      hide Holds, IStream.Valid, IStream.Rest;
      c := '\0';
      if !staging.IsEmpty() {
        HoldsAt(staging.staged, stream.Rest(), rest, pads, 0);
        HoldsDeque(staging.staged, stream.Rest(), rest, pads);
        pads := if rest == "" then pads - 1 else pads;
        c := staging.Deque();
      } else {
        HoldsEmpty(stream.Rest(), rest, pads);
        var ok;
        ok, c := stream.ReadNextByte('\0');
        if !ok {
          c := '\0';
        }
        assert Holds("", stream.Rest(), stream.Rest(), 0);
      }
      rest := Drop(rest, 1);
      column := column + 1;
      if c == '\n' {
        lineNum := lineNum + 1;
        column := 0;
      }
    }

    /** `undo_staging_area`. */
    method Undo()
      requires Valid()
      modifies staging
      ensures Valid() && staging.looked == 0 && staging.staged == old(staging.staged)
    {
      staging.Undo();
    }

    /** `lex_reject_cnt`, and `lex_reject` for one. */
    method RejectCnt(cnt: nat)
      requires Valid()
      modifies this`rest, this`pads, this`lineNum, this`column, staging, staging.buf, stream, stream.buffer
      ensures Valid() && rest == Drop(old(rest), cnt)
      ensures |staging.staged| == if |old(staging.staged)| <= cnt then 0 else |old(staging.staged)| - cnt
      ensures cnt <= |old(staging.staged)| ==> Pos() == Advance(old(Pos()), Take(old(rest), cnt))
      ensures staging.looked == if old(staging.looked) <= cnt then 0 else old(staging.looked) - cnt
    {
      hide Take, Drop, Advance, Step, LexerState.Valid;
      ghost var r, p, n, k := rest, Pos(), |staging.staged|, staging.looked;
      RejectNone(r, p);
      var i := 0;
      while i < cnt
        invariant i <= cnt && Valid() && rest == Drop(r, i)
        invariant staging.looked == if k <= i then 0 else k - i
        invariant |staging.staged| == if n <= i then 0 else n - i
        invariant i <= n ==> Pos() == Advance(p, Take(r, i))
      {
        RejectOneMore(r, p, i);
        var _ := Deque();
        i := i + 1;
      }
    }

    /** `lex_emit`. */
    method Emit(arena: MArena, c: char)
      requires arena.Valid() && arena.IsOpen()
      modifies this`emittedCnt
      modifies arena`buffer, arena`asked, arena`stagingSize, arena`failed
      ensures arena.Valid() && arena.IsOpen() && arena.Committed() == old(arena.Committed())
      ensures arena.stagingSize >= old(arena.stagingSize)
      ensures Moved(old(See(arena)), See(arena), "", Shown(GateNow(), [c]))
      ensures OutOfMem in err || InvalidInputBytes in err ==>
        emittedCnt == old(emittedCnt) && arena.Pending() == old(arena.Pending()) && arena.failed == old(arena.failed)
      ensures OutOfMem !in err && InvalidInputBytes !in err ==>
        && emittedCnt == old(emittedCnt) + 1
        && (!arena.failed ==> arena.Pending() == old(arena.Pending()) + [c])
        && arena.failed == (old(arena.failed) || !Takes(arena.dataSize, old(arena.stagingSize), 1,
             |old(arena.buffer)|, arena.canRealloc, arena.kernel(old(arena.asked))))
    {
      ghost var v := See(arena);
      MovedNot(v, v.gate);
      if Emits() {
        var _ := arena.AddChar(c);
        emittedCnt := emittedCnt + 1;
      }
    }

    /** `lex_accept` of a character that was looked at. */
    method Accept(arena: MArena)
      requires Valid() && arena.Valid() && arena.IsOpen() && staging.looked > 0
      modifies this`rest, this`pads, this`lineNum, this`column, this`emittedCnt
      modifies staging, staging.buf, stream, stream.buffer
      modifies arena`buffer, arena`asked, arena`stagingSize, arena`failed
      ensures Valid() && arena.Valid() && arena.IsOpen() && arena.Committed() == old(arena.Committed())
      ensures arena.stagingSize >= old(arena.stagingSize)
      ensures rest == Drop(old(rest), 1) && staging.looked == old(staging.looked) - 1
      ensures Moved(old(See(arena)), See(arena), Take(old(rest), 1), Shown(old(GateNow()), Take(old(rest), 1)))
      ensures GateNow() == Consume(old(GateNow()), 1)
    {
      ghost var v := See(arena);
      assert staging.staged != "";
      var c := Deque();
      ghost var u := See(arena);
      Emit(arena, c);
      MovedByOne(v, u, See(arena), c, Shown(v.gate, [c]));
    }

    /** `lex_accept_cnt` of characters that were looked at. */
    method AcceptIn(arena: MArena, cnt: nat)
      requires Valid() && arena.Valid() && arena.IsOpen() && cnt <= staging.looked
      modifies this`rest, this`pads, this`lineNum, this`column, this`emittedCnt
      modifies staging, staging.buf, stream, stream.buffer
      modifies arena`buffer, arena`asked, arena`stagingSize, arena`failed
      ensures Valid() && arena.Valid() && arena.IsOpen() && arena.Committed() == old(arena.Committed())
      ensures arena.stagingSize >= old(arena.stagingSize)
      ensures rest == Drop(old(rest), cnt) && staging.looked == old(staging.looked) - cnt
      ensures Moved(old(See(arena)), See(arena), Take(old(rest), cnt), Shown(old(GateNow()), Take(old(rest), cnt)))
      ensures GateNow() == Consume(old(GateNow()), cnt)
    {
      ghost var v, n := See(arena), staging.looked;
      assert v.rest == rest && v.gate == GateNow() && Consume(v.gate, 0) == v.gate;
      MovedNot(v, v.gate);
      ShownNothing(v.gate);
      var i := 0;
      while i < cnt
        invariant i <= cnt && Valid() && arena.Valid() && arena.IsOpen()
        invariant arena.Committed() == old(arena.Committed()) && rest == Drop(v.rest, i)
        invariant arena.stagingSize >= old(arena.stagingSize)
        invariant staging.looked == n - i && See(arena).gate == GateNow() == Consume(v.gate, i)
        invariant Moved(v, See(arena), Take(v.rest, i), Shown(v.gate, Take(v.rest, i)))
      {
        ghost var u := See(arena);
        Accept(arena);
        MovedOneMore(v, u, See(arena), i, v.gate);
        i := i + 1;
      }
    }

    /** `next`, in terms of what a recogniser's contract speaks of. */
    method NextIn(ghost arena: MArena) returns (c: char)
      requires Valid() && arena.Valid() && arena.IsOpen() && staging.looked < Capacity(staging.wrapping)
      modifies this`pads, this`err, staging, staging.buf, stream, stream.buffer
      ensures Valid() && c == At(rest, old(staging.looked))
      ensures staging.looked == old(staging.looked) + 1 <= |staging.staged|
      ensures arena.Valid() && arena.IsOpen() && See(arena) == old(See(arena)).(gate := GateNow())
      ensures GateNow() == Look(old(GateNow()), rest, staging.looked) && err == Reported(old(err), GateNow())
    {
      c := Next();
    }

    /** `lex_reject_cnt` of characters that were looked at. */
    method RejectIn(ghost arena: MArena, cnt: nat)
      requires Valid() && arena.Valid() && arena.IsOpen() && cnt <= staging.looked
      modifies this`rest, this`pads, this`lineNum, this`column, staging, staging.buf, stream, stream.buffer
      ensures Valid() && rest == Drop(old(rest), cnt) && staging.looked == old(staging.looked) - cnt
      ensures arena.Valid() && arena.IsOpen() && Moved(old(See(arena)), See(arena), Take(old(rest), cnt), "")
      ensures GateNow() == Consume(old(GateNow()), cnt)
    {
      ghost var v := See(arena);
      assert staging.looked <= |staging.staged|;
      RejectCnt(cnt);
      MovedBySkipping(v, See(arena), cnt);
    }

    // -------------------------------------------------------------- whitespace and words

    /** `eat_whitespaces`. */
    method EatWhitespaces()
      requires Valid() && staging.looked == 0
      modifies this`rest, this`pads, this`err, this`lineNum, this`column, staging, staging.buf, stream, stream.buffer
      ensures Valid() && staging.looked == 0
      ensures var r := RunOf(Blank, old(rest), old(GateNow()));
        && rest == old(rest)[r.n..] && Pos() == Advance(old(Pos()), old(rest)[..r.n])
        && GateNow() == r.gate && err == Reported(old(err), r.gate)
      ensures var n := |old(rest)| - |rest|;
        && 0 <= n && rest == old(rest)[n..]
        && (forall i :: 0 <= i < n ==> 9 <= old(rest)[i] as int <= 13 || old(rest)[i] as int == 32)
        && (rest != "" ==> !(9 <= rest[0] as int <= 13 || rest[0] as int == 32))
    {
      hide RunOf, RunSoFar, Look, EndsAt, In, LexerState.Valid, Advance, Step, Consume;
      ghost var r, p, e, g0, n, text := rest, Pos(), err, GateNow(), 0, "";
      RunStarts(Blank, r, g0);
      var go := true;
      SkipNothing(r, p);
      while go
        invariant Valid() && n <= |r| && rest == r[n..] && Pos() == Advance(p, r[..n])
        invariant err == Reported(e, GateNow())
        invariant go ==> staging.looked == 0 && RunSoFar(Blank, r, g0, n, text, rest, GateNow())
        invariant !go ==> RunOf(Blank, r, g0) == Run(n, text, GateNow())
        decreases go, |rest|
      {
        ghost var g := GateNow();
        RunGoesOn(Blank, r, g0, n, text, rest, g);
        if n < |r| {
          SkipOneMore(r, p, n);
        }
        ghost var c := At(rest, 0);
        ghost var g1 := Look(g, rest, 1);
        go := SkipOne();
        if go {
          n, text := n + 1, text + Shown(g1, [c]);
        }
      }
      BlanksGone(r, g0, rest);
      Undo();
    }

    /** One round of `eat_whitespaces`. */
    method SkipOne() returns (go: bool)
      requires Valid() && staging.looked == 0
      modifies this`rest, this`pads, this`err, this`lineNum, this`column, staging, staging.buf, stream, stream.buffer
      ensures Valid() && err == Reported(old(err), GateNow())
      ensures go <==> !EndsAt(old(GateNow()), old(rest)) && In(Blank, old(rest)[0])
      ensures go ==> (
        && staging.looked == 0 && rest == old(rest)[1..] && Pos() == Step(old(Pos()), old(rest)[0])
        && GateNow() == Consume(Look(old(GateNow()), old(rest), 1), 1))
      ensures !go ==> rest == old(rest) && Pos() == old(Pos())
      ensures !go && EndsAt(old(GateNow()), old(rest)) ==> GateNow() == old(GateNow())
      ensures !go && !EndsAt(old(GateNow()), old(rest)) ==> GateNow() == Look(old(GateNow()), old(rest), 1)
    {
      var end := IsEnd();
      go := false;
      if !end {
        var c := Next();
        go := IsWhitespaceChar(c);
        if go {
          assert staging.staged != "";
          var _ := Deque();
        }
      }
    }

    /** The loops of `lex_whitespaces` and `lex_identifier_or_keyword`. */
    method LexRun(arena: MArena, k: Class)
      requires Valid() && arena.Valid() && arena.IsOpen() && staging.looked == 0
      modifies this`rest, this`pads, this`err, this`lineNum, this`column, this`emittedCnt
      modifies staging, staging.buf, stream, stream.buffer
      modifies arena`buffer, arena`asked, arena`stagingSize, arena`failed
      ensures Valid() && arena.Valid() && arena.IsOpen() && arena.Committed() == old(arena.Committed())
      ensures arena.stagingSize >= old(arena.stagingSize)
      ensures var r := RunOf(k, old(rest), old(GateNow()));
        && Moved(old(See(arena)), See(arena), Take(old(rest), r.n), r.text)
        && GateNow() == r.gate && err == Reported(old(err), r.gate)
    {
      ghost var v, e, n, text := See(arena), err, 0, "";
      RunBegins(k, v, e);
      var go := true;
      while go
        invariant Valid() && arena.Valid() && arena.IsOpen() && arena.Committed() == v.committed
        invariant arena.stagingSize >= old(arena.stagingSize) && (go ==> staging.looked == 0)
        invariant Running(k, v, See(arena), e, err, n, text, go)
        decreases go, |rest|
      {
        ghost var u, f := See(arena), err;
        go := RunOne(arena, k);
        RunTurns(k, v, u, See(arena), e, f, err, n, text, go);
        if go {
          n, text := n + 1, text + Shown(Look(u.gate, u.rest, 1), [u.rest[0]]);
        }
      }
    }

    /** One round of these loops. */
    method RunOne(arena: MArena, k: Class) returns (go: bool)
      requires Valid() && arena.Valid() && arena.IsOpen() && staging.looked == 0
      modifies this`rest, this`pads, this`err, this`lineNum, this`column, this`emittedCnt
      modifies staging, staging.buf, stream, stream.buffer
      modifies arena`buffer, arena`asked, arena`stagingSize, arena`failed
      ensures Valid() && arena.Valid() && arena.IsOpen() && arena.Committed() == old(arena.Committed())
      ensures arena.stagingSize >= old(arena.stagingSize)
      ensures RanOne(k, old(See(arena)), See(arena), old(err), err, go) && (go ==> staging.looked == 0)
    {
      var end := IsEnd();
      go := false;
      if !end {
        TakeOne(rest);
        ghost var v := See(arena);
        var c := NextIn(arena);
        go := In(k, c);
        if go {
          ghost var u := See(arena);
          Accept(arena);
          MovedSame(v, u, See(arena), [c], Shown(u.gate, [c]));
        }
      }
    }

    /** `lex_whitespaces`. */
    method LexWhitespaces(arena: MArena)
      requires Valid() && arena.Valid() && arena.IsOpen() && staging.looked == 0
      modifies this`rest, this`pads, this`err, this`lineNum, this`column, this`emittedCnt
      modifies staging, staging.buf, stream, stream.buffer
      modifies arena`buffer, arena`asked, arena`stagingSize, arena`failed
      ensures Valid() && arena.Valid() && arena.IsOpen() && arena.Committed() == old(arena.Committed())
      ensures arena.stagingSize >= old(arena.stagingSize)
      ensures var n := Span(Blank, old(rest));
        Moved(old(See(arena)), See(arena), Take(old(rest), n), Shown(old(GateNow()), Take(old(rest), n)))
      ensures var r := RunOf(Blank, old(rest), old(GateNow())); GateNow() == r.gate && err == Reported(old(err), r.gate)
      ensures var n := |old(rest)| - |rest|;
        && 0 <= n && rest == old(rest)[n..]
        && (forall i :: 0 <= i < n ==> 9 <= old(rest)[i] as int <= 13 || old(rest)[i] as int == 32)
        && (rest != "" ==> !(9 <= rest[0] as int <= 13 || rest[0] as int == 32))
    {
      BlanksAre(rest);
      BlanksAreAll(rest, GateNow());
      LexRun(arena, Blank);
    }

    /** `lex_identifier_or_keyword`. */
    method LexIdentifierOrKeyword(arena: MArena)
      requires Valid() && arena.Valid() && arena.IsOpen() && staging.looked == 0
      modifies this`rest, this`pads, this`err, this`lineNum, this`column, this`emittedCnt
      modifies staging, staging.buf, stream, stream.buffer
      modifies arena`buffer, arena`asked, arena`stagingSize, arena`failed
      ensures Valid() && arena.Valid() && arena.IsOpen() && arena.Committed() == old(arena.Committed())
      ensures arena.stagingSize >= old(arena.stagingSize)
      ensures var r := RunOf(Word, old(rest), old(GateNow()));
        && Moved(old(See(arena)), See(arena), Take(old(rest), r.n), r.text)
        && GateNow() == r.gate && err == Reported(old(err), r.gate)
    {
      LexRun(arena, Word);
    }

    /** `is_whitespace`. */
    method IsWhitespace(ghost arena: MArena) returns (r: bool)
      requires Valid() && arena.Valid() && arena.IsOpen() && staging.looked == 0
      modifies this`pads, this`err, staging, staging.buf, stream, stream.buffer
      ensures Valid() && staging.looked == 0 && arena.Valid() && arena.IsOpen()
      ensures r <==> IsWhitespaceChar(At(rest, 0))
      ensures r <==> 9 <= At(rest, 0) as int <= 13 || At(rest, 0) as int == 32
      ensures See(arena) == old(See(arena)).(gate := GateNow())
      ensures GateNow() == Look(old(GateNow()), rest, 1) && err == Reported(old(err), GateNow())
    {
      var c := NextIn(arena);
      r := IsWhitespaceChar(c);
      Undo();
    }

    // -------------------------------------------------------------- punctuators

    /** `is_c11_punctuator`. */
    method IsC11Punctuator(ghost arena: MArena) returns (r: bool)
      requires Valid() && arena.Valid() && arena.IsOpen() && staging.looked == 0
      modifies this`pads, this`err, staging, staging.buf, stream, stream.buffer
      ensures Valid() && staging.looked == 0 && arena.Valid() && arena.IsOpen()
      ensures r <==> IsPunctuatorChar(At(rest, 0))
      ensures At(rest, 0) as int < 256 ==> (r <==> var n := At(rest, 0) as int;
        33 <= n <= 47 || 58 <= n <= 64 || 91 <= n <= 94 || 123 <= n <= 127)
      ensures See(arena) == old(See(arena)).(gate := GateNow())
      ensures GateNow() == Look(old(GateNow()), rest, 1) && err == Reported(old(err), GateNow())
    {
      var c := NextIn(arena);
      r := IsPunctuatorChar(c);
      Undo();
    }

    /** `next` three times. */
    method NextThree(ghost arena: MArena) returns (c1: char, c2: char, c3: char)
      requires Valid() && arena.Valid() && arena.IsOpen() && staging.looked == 0
      modifies this`pads, this`err, staging, staging.buf, stream, stream.buffer
      ensures Valid() && staging.looked == 3 && arena.Valid() && arena.IsOpen()
      ensures c1 == At(rest, 0) && c2 == At(rest, 1) && c3 == At(rest, 2)
      ensures See(arena) == old(See(arena)).(gate := GateNow())
      ensures GateNow() == Look(old(GateNow()), rest, 3) && err == Reported(old(err), GateNow())
    {
      ghost var g := GateNow();
      LookOn(g, rest, 1, 2);
      LookOn(g, rest, 2, 3);
      FlaggedOn(g, rest, 1, 2);
      FlaggedOn(g, rest, 2, 3);
      c1 := NextIn(arena);
      c2 := NextIn(arena);
      c3 := NextIn(arena);
    }

    /** `lex_c11_punctuator`. */
    method LexC11Punctuator(arena: MArena) returns (t: TokenType)
      requires Valid() && arena.Valid() && arena.IsOpen() && staging.looked == 0
      modifies this`rest, this`pads, this`err, this`lineNum, this`column, this`emittedCnt
      modifies staging, staging.buf, stream, stream.buffer
      modifies arena`buffer, arena`asked, arena`stagingSize, arena`failed
      ensures Valid() && arena.Valid() && arena.IsOpen() && arena.Committed() == old(arena.Committed())
      ensures arena.stagingSize >= old(arena.stagingSize)
      ensures t == MunchAt(old(rest)).0
      ensures var n, g := MunchAt(old(rest)).1, Look(old(GateNow()), old(rest), 3);
        && Moved(old(See(arena)), See(arena), Take(old(rest), n), Shown(g, Take(old(rest), n)))
        && GateNow() == Consume(g, n) && err == Reported(old(err), g)
    {
      AtMostThree(rest);
      ghost var v := See(arena);
      var c1, c2, c3 := NextThree(arena);
      ghost var u := See(arena);
      hide Munch;
      var cnt;
      t, cnt := Munch(c1, c2, c3).0, Munch(c1, c2, c3).1;
      AcceptIn(arena, cnt);
      MovedSame(v, u, See(arena), Take(v.rest, cnt), Shown(u.gate, Take(v.rest, cnt)));
    }

    // -------------------------------------------------------------- string literals

    /** `is_xml_string_literal`. */
    method IsXmlStringLiteral(ghost arena: MArena) returns (r: bool)
      requires Valid() && arena.Valid() && arena.IsOpen() && staging.looked == 0
      modifies this`pads, this`err, staging, staging.buf, stream, stream.buffer
      ensures Valid() && staging.looked == 0 && arena.Valid() && arena.IsOpen()
      ensures r <==> IsDelimiter(At(rest, 0))
      ensures r <==> At(rest, 0) as int == 39 || At(rest, 0) as int == 34
      ensures See(arena) == old(See(arena)).(gate := GateNow())
      ensures GateNow() == Look(old(GateNow()), rest, 1) && err == Reported(old(err), GateNow())
    {
      var c := NextIn(arena);
      r := c == '\'' || c == '"';
      Undo();
    }

    /** The characters that decide about a round of the loop of `lex_xml_string_literal`. */
    method StringLook(ghost arena: MArena) returns (c0: char, c1: char)
      requires Valid() && arena.Valid() && arena.IsOpen() &&
        staging.looked + StringLooks(rest, staging.looked) <= Capacity(staging.wrapping)
      modifies this`pads, this`err, staging, staging.buf, stream, stream.buffer
      ensures Valid() && arena.Valid() && arena.IsOpen() && See(arena) == old(See(arena)).(gate := GateNow())
      ensures c0 == At(rest, old(staging.looked)) && (c0 == '\\' ==> c1 == At(rest, old(staging.looked) + 1))
      ensures staging.looked == old(staging.looked) + StringLooks(rest, old(staging.looked))
      ensures GateNow() == Look(old(GateNow()), rest, staging.looked) && err == Reported(old(err), GateNow())
    {
      ghost var g, k := GateNow(), staging.looked;
      LookOn(g, rest, k + 1, k + 2);
      FlaggedOn(g, rest, k + 1, k + 2);
      ReportedOn(err, Look(g, rest, k + 1), Look(g, rest, k + 2));
      c1 := '\0';
      c0 := NextIn(arena);
      if c0 == '\\' {
        c1 := NextIn(arena);
      }
    }

    /** What the loop does about these characters. */
    method StringAct(arena: MArena, d: char, ghost k: nat, c0: char, c1: char) returns (stop: Option<Stop>)
      requires Valid() && arena.Valid() && arena.IsOpen() && rest != ""
      requires c0 == At(rest, k) && (c0 == '\\' ==> c1 == At(rest, k + 1))
      requires staging.looked == k + StringLooks(rest, k)
      modifies this`rest, this`pads, this`err, this`lineNum, this`column, this`emittedCnt
      modifies staging, staging.buf, stream, stream.buffer
      modifies arena`buffer, arena`asked, arena`stagingSize, arena`failed
      ensures Valid() && arena.Valid() && arena.IsOpen() && arena.Committed() == old(arena.Committed())
      ensures arena.stagingSize >= old(arena.stagingSize)
      ensures var r := StringRound(old(rest), k, d);
        && stop == r.stop && err == AfterRound(old(err), stop) && (stop.None? ==> staging.looked == r.skew)
        && Moved(old(See(arena)), See(arena), r.used, Shown(old(GateNow()), r.text))
        && rest == Drop(old(rest), |r.used|) && GateNow() == Consume(old(GateNow()), |r.used|)
    {
      ghost var v := See(arena);
      assert v.rest == rest;
      ShownNothing(GateNow());
      stop := None;
      if c0 == '\\' {
        if IsEscapable(c1, d) {
          RejectAndEmit(arena, c1);
        } else {
          RejectIn(arena, 1);
        }
      } else if c0 == d {
        stop := Some(Closed);
        RejectIn(arena, 1);
      } else if c0 == '\n' {
        stop := Some(Broken);
        SetError(arena, InvalidString);
        RejectIn(arena, 1);
      } else {
        Accept(arena);
      }
    }

    /** An escape: both characters go, and the second one is emitted. */
    method RejectAndEmit(arena: MArena, c: char)
      requires Valid() && arena.Valid() && arena.IsOpen() && staging.looked >= 2
      modifies this`rest, this`pads, this`lineNum, this`column, this`emittedCnt
      modifies staging, staging.buf, stream, stream.buffer
      modifies arena`buffer, arena`asked, arena`stagingSize, arena`failed
      ensures Valid() && arena.Valid() && arena.IsOpen() && arena.Committed() == old(arena.Committed())
      ensures arena.stagingSize >= old(arena.stagingSize)
      ensures rest == Drop(old(rest), 2) && staging.looked == old(staging.looked) - 2
      ensures Moved(old(See(arena)), See(arena), Take(old(rest), 2), Shown(old(GateNow()), [c]))
      ensures GateNow() == Consume(old(GateNow()), 2)
    {
      ghost var v := See(arena);
      assert v.rest == rest;
      RejectIn(arena, 2);
      ghost var u := See(arena);
      Emit(arena, c);
      MovedOn(v, u, See(arena), Take(v.rest, 2), "", "", Shown(v.gate, [c]));
      Empties(Take(v.rest, 2), Shown(v.gate, [c]));
    }

    /** One round of the loop. */
    method StringOne(arena: MArena, d: char) returns (stop: Option<Stop>)
      requires ReadFits(rest, staging.looked, d, GateNow(), Capacity(staging.wrapping))
      requires Valid() && arena.Valid() && arena.IsOpen()
      modifies this`rest, this`pads, this`err, this`lineNum, this`column, this`emittedCnt
      modifies staging, staging.buf, stream, stream.buffer
      modifies arena`buffer, arena`asked, arena`stagingSize, arena`failed
      ensures Valid() && arena.Valid() && arena.IsOpen() && arena.Committed() == old(arena.Committed())
      ensures arena.stagingSize >= old(arena.stagingSize)
      ensures Stepped(old(See(arena)), See(arena), old(err), err, old(staging.looked), d, stop)
      ensures stop.None? ==> staging.looked == StringStep(old(rest), old(staging.looked), d, old(GateNow())).0.skew
    {
      hide Stepped, Moved, ReadFits;
      ghost var v, e, k := See(arena), err, staging.looked;
      stop := Some(Exhausted);
      FitsOn(rest, k, d, v.gate, Capacity(staging.wrapping));
      EndSteps(v, e, k, d);
      var end := IsEnd();
      if !end {
        var c0, c1 := StringLook(arena);
        ghost var u, f := See(arena), err;
        stop := StringAct(arena, d, k, c0, c1);
        ActSteps(v, u, See(arena), e, f, err, k, d, stop);
      }
    }

    /** `lex_xml_string_literal`. */
    method LexXmlStringLiteral(arena: MArena)
      requires IsDelimiter(At(rest, 0))
      requires ReadFits(Drop(rest, 1), 0, At(rest, 0), Consume(Look(GateNow(), rest, 1), 1), Capacity(staging.wrapping))
      requires Valid() && arena.Valid() && arena.IsOpen() && staging.looked == 0
      modifies this`rest, this`pads, this`err, this`lineNum, this`column, this`emittedCnt
      modifies staging, staging.buf, stream, stream.buffer
      modifies arena`buffer, arena`asked, arena`stagingSize, arena`failed
      ensures Valid() && arena.Valid() && arena.IsOpen() && arena.Committed() == old(arena.Committed())
      ensures arena.stagingSize >= old(arena.stagingSize)
      ensures var (s, g) :=
          ReadString(Drop(old(rest), 1), 0, At(old(rest), 0), Consume(Look(old(GateNow()), old(rest), 1), 1));
        && Moved(old(See(arena)), See(arena), Take(old(rest), 1) + s.used, s.text)
        && GateNow() == g && err == Reported(old(err), g) + match s.stop
             case Closed => {}
             case Broken => {InvalidString, PrematureEndOfString}
             case Exhausted => {PrematureEndOfString}
    {
      var stop := StringBody(arena);
      if stop != Closed {
        SetError(arena, PrematureEndOfString);
      }
    }

    /** The opening delimiter and all rounds of the loop. */
    method StringBody(arena: MArena) returns (stop: Stop)
      requires IsDelimiter(At(rest, 0))
      requires ReadFits(Drop(rest, 1), 0, At(rest, 0), Consume(Look(GateNow(), rest, 1), 1), Capacity(staging.wrapping))
      requires Valid() && arena.Valid() && arena.IsOpen() && staging.looked == 0
      modifies this`rest, this`pads, this`err, this`lineNum, this`column, this`emittedCnt
      modifies staging, staging.buf, stream, stream.buffer
      modifies arena`buffer, arena`asked, arena`stagingSize, arena`failed
      ensures Valid() && arena.Valid() && arena.IsOpen() && arena.Committed() == old(arena.Committed())
      ensures arena.stagingSize >= old(arena.stagingSize)
      ensures var (s, g) :=
          ReadString(Drop(old(rest), 1), 0, At(old(rest), 0), Consume(Look(old(GateNow()), old(rest), 1), 1));
        && Moved(old(See(arena)), See(arena), Take(old(rest), 1) + s.used, s.text)
        && GateNow() == g && stop == s.stop && err == AfterRound(Reported(old(err), g), Some(stop))
    {
      ghost var v, e := See(arena), err;
      assert v.rest == rest && v.gate == GateNow();
      var delimiter := OpenString(arena);
      ghost var u, f := See(arena), err;
      ghost var s, g := ReadString(rest, 0, delimiter, GateNow()).0, ReadString(rest, 0, delimiter, GateNow()).1;
      StringFlags(rest, 0, delimiter, GateNow());
      ReportedOn(e, GateNow(), g);
      stop := StringLoop(arena, delimiter);
      MovedOn(v, u, See(arena), Take(v.rest, 1), "", s.used, s.text);
      Empties(s.text, s.text);
    }

    /** The opening delimiter is dropped. */
    method OpenString(ghost arena: MArena) returns (delimiter: char)
      requires Valid() && arena.Valid() && arena.IsOpen() && staging.looked == 0
      modifies this`rest, this`pads, this`err, this`lineNum, this`column, staging, staging.buf, stream, stream.buffer
      ensures Valid() && staging.looked == 0 && arena.Valid() && arena.IsOpen()
      ensures delimiter == At(old(rest), 0) && rest == Drop(old(rest), 1)
      ensures Moved(old(See(arena)), See(arena), Take(old(rest), 1), "")
      ensures GateNow() == Consume(Look(old(GateNow()), old(rest), 1), 1) && err == Reported(old(err), GateNow())
    {
      ghost var v := See(arena);
      delimiter := NextIn(arena);
      ghost var u := See(arena);
      RejectIn(arena, 1);
      MovedSame(v, u, See(arena), Take(v.rest, 1), "");
    }

    /** What `errfmt` does to the state, for errors that do not stop emitting. */
    method SetError(ghost arena: MArena, e: LexerErr)
      requires Valid() && arena.Valid() && arena.IsOpen() && e != OutOfMem && e != InvalidInputBytes
      modifies this`err
      ensures Valid() && arena.Valid() && arena.IsOpen() && See(arena) == old(See(arena)) && err == old(err) + {e}
      ensures GateNow() == old(GateNow())
    {
      err := err + {e};
    }

    method StringLoop(arena: MArena, d: char) returns (stop: Stop)
      requires ReadFits(rest, 0, d, GateNow(), Capacity(staging.wrapping))
      requires Valid() && arena.Valid() && arena.IsOpen() && staging.looked == 0
      modifies this`rest, this`pads, this`err, this`lineNum, this`column, this`emittedCnt
      modifies staging, staging.buf, stream, stream.buffer
      modifies arena`buffer, arena`asked, arena`stagingSize, arena`failed
      ensures Valid() && arena.Valid() && arena.IsOpen() && arena.Committed() == old(arena.Committed())
      ensures arena.stagingSize >= old(arena.stagingSize)
      ensures var (s, g) := ReadString(old(rest), 0, d, old(GateNow()));
        && Moved(old(See(arena)), See(arena), s.used, s.text)
        && GateNow() == g && stop == s.stop && err == AfterRound(Reported(old(err), g), Some(stop))
    {
      ghost var v, e := See(arena), err;
      ghost var used, text := "", "";
      assert v.rest == rest && v.gate == GateNow();
      MovedNot(v, v.gate);
      StringStarts(rest, d, GateNow());
      var halt: Option<Stop> := None;
      while halt.None?
        invariant Valid() && arena.Valid() && arena.IsOpen() && arena.Committed() == v.committed
        invariant arena.stagingSize >= old(arena.stagingSize) && See(arena).gate == GateNow()
        invariant Moved(v, See(arena), used, text) && err == AfterRound(Reported(e, GateNow()), halt)
        invariant halt.None? ==> ReadFits(rest, staging.looked, d, GateNow(), Capacity(staging.wrapping))
        invariant halt.None? ==> StringSoFar(v.rest, d, v.gate, text, used, rest, staging.looked, GateNow())
        invariant halt.Some? ==> ReadString(v.rest, 0, d, v.gate) == (Scan(text, used, halt.value), GateNow())
        decreases halt.None?, |rest|
      {
        ghost var u, k, g := See(arena), staging.looked, GateNow();
        ghost var r := StringStep(rest, k, d, g).0;
        StringGoesOn(v.rest, d, v.gate, text, used, rest, k, g);
        StepFitsOn(rest, k, d, Capacity(staging.wrapping), g);
        halt := StringOne(arena, d);
        MovedOn(v, u, See(arena), used, text, r.used, r.text);
        used, text := used + r.used, text + r.text;
      }
      stop := halt.value;
    }

    // -------------------------------------------------------------- comments

    /** `lex_debug_ensure_starts_with`: whether its asserts hold. */
    method EnsureStartsWith(ghost arena: MArena, s: string) returns (ok: bool)
      requires Valid() && arena.Valid() && arena.IsOpen() && |s| <= Capacity(staging.wrapping)
      modifies this`pads, this`err, staging, staging.buf, stream, stream.buffer
      ensures Valid() && staging.looked == 0 && |staging.staged| >= |s|
      ensures arena.Valid() && arena.IsOpen() && See(arena) == old(See(arena)).(gate := GateNow())
      ensures GateNow() == Look(old(GateNow()), rest, |s|) && err == Reported(old(err), GateNow())
      ensures ok <==> Take(rest, |s|) == s
    {
      hide Take, Look, At, Starts, MArena.Valid, LexerState.Valid;
      ghost var g := GateNow();
      StartsOn(rest, s, 0);
      LookAtNothing(g, rest);
      Undo();
      ok := true;
      var i := 0;
      while i < |s|
        invariant i <= |s| && Valid() && staging.looked == i <= |staging.staged| && arena.Valid() && arena.IsOpen()
        invariant See(arena) == old(See(arena)).(gate := GateNow())
        invariant GateNow() == Look(g, rest, i) && err == Reported(old(err), GateNow())
        invariant ok <==> Starts(rest, s, i)
      {
        LookOn(g, rest, i, i + 1);
        FlaggedOn(g, rest, i, i + 1);
        StartsOn(rest, s, i);
        var c := NextIn(arena);
        ok := ok && c == s[i];
        i := i + 1;
      }
      Undo();
    }

    /** `is_xml_comment`. */
    method IsXmlComment(ghost arena: MArena) returns (r: bool)
      requires Valid() && arena.Valid() && arena.IsOpen() && staging.looked == 0
      modifies this`pads, this`err, staging, staging.buf, stream, stream.buffer
      ensures Valid() && staging.looked == 0 && arena.Valid() && arena.IsOpen()
      ensures r <==> Take(rest, 4) == "<!--"
      ensures See(arena) == old(See(arena)).(gate := GateNow())
      ensures GateNow() == Look(old(GateNow()), rest, 4) && err == Reported(old(err), GateNow())
    {
      r := EnsureStartsWith(arena, "<!--");
    }

    /** The characters that decide about a round of the loop of `lex_xml_comment`. */
    method CommentLook(ghost arena: MArena) returns (end: bool, n: nat, close: bool)
      requires Valid() && arena.Valid() && arena.IsOpen() && staging.looked == 0
      modifies this`pads, this`err, staging, staging.buf, stream, stream.buffer
      ensures Valid() && arena.Valid() && arena.IsOpen() && See(arena) == old(See(arena)).(gate := GateNow())
      ensures end <==> EndsAt(old(GateNow()), rest)
      ensures end ==> GateNow() == old(GateNow()) && err == old(err)
      ensures !end ==> staging.looked == n == CommentLooks(rest) && n == |CommentRound(rest).used|
      ensures !end ==> (
        CommentRound(rest) ==
          Round(if close then "" else Take(rest, n), Take(rest, n), 0, if close then Some(Closed) else None))
      ensures !end ==> GateNow() == Look(old(GateNow()), rest, n) && err == Reported(old(err), GateNow())
    {
      ghost var g := GateNow();
      LookOn(g, rest, 1, 2);
      LookOn(g, rest, 2, 3);
      FlaggedOn(g, rest, 1, 2);
      FlaggedOn(g, rest, 2, 3);
      n, close := 0, false;
      end := IsEnd();
      if !end {
        n := 1;
        var c := NextIn(arena);
        if c == '-' {
          n := 2;
          c := NextIn(arena);
          if c == '-' {
            n := 3;
            c := NextIn(arena);
            close := c == '>';
          }
        }
      }
    }

    /** One round of the loop. */
    method CommentOne(arena: MArena) returns (stop: Option<Stop>)
      requires Valid() && arena.Valid() && arena.IsOpen() && staging.looked == 0
      modifies this`rest, this`pads, this`err, this`lineNum, this`column, this`emittedCnt
      modifies staging, staging.buf, stream, stream.buffer
      modifies arena`buffer, arena`asked, arena`stagingSize, arena`failed
      ensures Valid() && arena.Valid() && arena.IsOpen() && arena.Committed() == old(arena.Committed())
      ensures arena.stagingSize >= old(arena.stagingSize)
      ensures var (r, g) := CommentStep(old(rest), old(GateNow()));
        && stop == r.stop && (stop.None? ==> staging.looked == 0)
        && Moved(old(See(arena)), See(arena), r.used, r.text)
        && rest == Drop(old(rest), |r.used|) && GateNow() == g && err == Reported(old(err), g)
    {
      ghost var v := See(arena);
      assert v.rest == rest && v.gate == GateNow();
      MovedNot(v, v.gate);
      stop := Some(Exhausted);
      var end, n, close := CommentLook(arena);
      if !end {
        ghost var u := See(arena);
        ShownNothing(u.gate);
        if close {
          stop := Some(Closed);
          RejectIn(arena, n);
          MovedSame(v, u, See(arena), Take(v.rest, n), "");
        } else {
          stop := None;
          AcceptIn(arena, n);
          MovedSame(v, u, See(arena), Take(v.rest, n), Shown(u.gate, Take(v.rest, n)));
        }
      }
    }

    /** `lex_xml_comment`. */
    method LexXmlComment(arena: MArena)
      requires Take(rest, 4) == "<!--"
      requires Valid() && arena.Valid() && arena.IsOpen() && staging.looked == 0
      modifies this`rest, this`pads, this`err, this`lineNum, this`column, this`emittedCnt
      modifies staging, staging.buf, stream, stream.buffer
      modifies arena`buffer, arena`asked, arena`stagingSize, arena`failed
      ensures Valid() && arena.Valid() && arena.IsOpen() && arena.Committed() == old(arena.Committed())
      ensures arena.stagingSize >= old(arena.stagingSize)
      ensures var (s, g) := ReadComment(Drop(old(rest), 4), Consume(Look(old(GateNow()), old(rest), 4), 4));
        && Moved(old(See(arena)), See(arena), "<!--" + s.used, s.text)
        && GateNow() == g && err == Reported(old(err), g)
    {
      ghost var v, e := See(arena), err;
      assert v.rest == rest && v.gate == GateNow();
      OpenComment(arena);
      ghost var u := See(arena);
      ghost var s := ReadComment(rest, GateNow()).0;
      CommentFlags(rest, GateNow());
      ReportedOn(e, GateNow(), ReadComment(rest, GateNow()).1);
      CommentLoop(arena);
      MovedOn(v, u, See(arena), "<!--", "", s.used, s.text);
      Empties(s.text, s.text);
    }

    /** The opening is dropped. */
    method OpenComment(ghost arena: MArena)
      requires Take(rest, 4) == "<!--"
      requires Valid() && arena.Valid() && arena.IsOpen() && staging.looked == 0
      modifies this`rest, this`pads, this`err, this`lineNum, this`column, staging, staging.buf, stream, stream.buffer
      ensures Valid() && staging.looked == 0 && arena.Valid() && arena.IsOpen() && rest == Drop(old(rest), 4)
      ensures Moved(old(See(arena)), See(arena), "<!--", "")
      ensures GateNow() == Consume(Look(old(GateNow()), old(rest), 4), 4) && err == Reported(old(err), GateNow())
    {
      ghost var v := See(arena);
      var _ := EnsureStartsWith(arena, "<!--");
      ghost var u := See(arena);
      RejectCnt(4);
      MovedBySkipping(u, See(arena), 4);
      MovedSame(v, u, See(arena), Take(v.rest, 4), "");
    }

    method CommentLoop(arena: MArena)
      requires Valid() && arena.Valid() && arena.IsOpen() && staging.looked == 0
      modifies this`rest, this`pads, this`err, this`lineNum, this`column, this`emittedCnt
      modifies staging, staging.buf, stream, stream.buffer
      modifies arena`buffer, arena`asked, arena`stagingSize, arena`failed
      ensures Valid() && arena.Valid() && arena.IsOpen() && arena.Committed() == old(arena.Committed())
      ensures arena.stagingSize >= old(arena.stagingSize)
      ensures var (s, g) := ReadComment(old(rest), old(GateNow()));
        && Moved(old(See(arena)), See(arena), s.used, s.text) && GateNow() == g && err == Reported(old(err), g)
    {
      ghost var v, e := See(arena), err;
      ghost var used, text := "", "";
      assert v.rest == rest && v.gate == GateNow();
      MovedNot(v, v.gate);
      CommentStarts(rest, GateNow());
      var halt: Option<Stop> := None;
      while halt.None?
        invariant Valid() && arena.Valid() && arena.IsOpen() && arena.Committed() == v.committed
        invariant arena.stagingSize >= old(arena.stagingSize) && See(arena).gate == GateNow()
        invariant Moved(v, See(arena), used, text) && err == Reported(e, GateNow())
        invariant halt.None? ==> staging.looked == 0 && CommentSoFar(v.rest, v.gate, text, used, rest, GateNow())
        invariant halt.Some? ==> ReadComment(v.rest, v.gate) == (Scan(text, used, halt.value), GateNow())
        decreases halt.None?, |rest|
      {
        ghost var u, g := See(arena), GateNow();
        ghost var r := CommentStep(rest, g).0;
        CommentGoesOn(v.rest, v.gate, text, used, rest, g);
        CommentStepLess(rest, g);
        halt := CommentOne(arena);
        MovedOn(v, u, See(arena), used, text, r.used, r.text);
        used, text := used + r.used, text + r.text;
      }
    }

    // -------------------------------------------------------------- tokens

    /** A driver: whitespace, then punctuators, and all else as identifiers. */
    method LexLogic(arena: MArena) returns (t: TokenType)
      requires Valid() && arena.Valid() && arena.IsOpen() && staging.looked == 0
      modifies this`rest, this`pads, this`err, this`lineNum, this`column, this`emittedCnt
      modifies staging, staging.buf, stream, stream.buffer
      modifies arena`buffer, arena`asked, arena`stagingSize, arena`failed
      ensures Valid() && arena.Valid() && arena.IsOpen() && arena.Committed() == old(arena.Committed())
      ensures arena.stagingSize >= old(arena.stagingSize)
      ensures var c := CutFirst(old(rest), old(GateNow()));
        && t == c.kind && Moved(old(See(arena)), See(arena), Take(old(rest), c.n), c.text)
        && GateNow() == c.gate && err == Reported(old(err), c.gate)
    {
      hide Moved, MArena.Valid, LexerState.Valid, RunOf;
      ghost var v, e, g := See(arena), err, GateNow();
      assert v.rest == rest;
      LookOn(g, rest, 1, 1);
      CutFlags(rest, g);
      ReportedOn(e, Look(g, rest, 1), CutFirst(rest, g).gate);
      ReportedOn(e, Look(g, rest, 1), Look(g, rest, 1));
      var blank := IsWhitespace(arena);
      ghost var u := See(arena);
      if blank {
        BlanksAreAll(rest, GateNow());
        LexWhitespaces(arena);
        t := Whitespace;
      } else {
        var punctuator := IsC11Punctuator(arena);
        if punctuator {
          t := LexC11Punctuator(arena);
        } else {
          LexIdentifierOrKeyword(arena);
          t := Identifier;
        }
      }
      ghost var c := CutFirst(v.rest, g);
      MovedSame(v, u, See(arena), Take(v.rest, c.n), c.text);
    }

    /** The end of `lexer_next_token`: the text is closed and committed, and the header is filled in. */
    method CloseToken(arena: MArena, t: TokenType, line: nat, col: nat, ghost text: string) returns (ref: MRef)
      requires Valid() && arena.Valid() && arena.IsOpen() && arena.stagingSize >= arena.dataSize + HEADER
      modifies this`err, this`lineNum, this`column, arena
      ensures Valid() && arena.Valid() && !arena.IsOpen()
      ensures ref == 0 ==> (
        arena.Committed() == old(arena.Committed()) && err == old(err) + {OutOfMem} && Pos() == Position(line, col))
      ensures ref != 0 ==> ref == |old(arena.Committed())| && err == old(err) && Pos() == old(Pos())
      ensures ref != 0 ==> !old(arena.failed)
      ensures old(arena.Pending() == Zeros(HEADER) + text && emittedCnt == |text|) && ref != 0 ==>
        arena.Committed() == old(arena.Committed()) + Bytes(Token(Code(t), Position(line, col), text))
      ensures var s := AddTo(old(arena.StoreNow()), 1);
        (ref != 0 <==> !s.failed) && arena.StoreNow() == AtRest(s)
      ensures GateNow() == if ref == 0 then old(GateNow()).(emits := false) else old(GateNow())
    {
      hide LexerState.Valid, Code, Fields, Bytes, Zeros, AddTo, Takes;
      ghost var c, p := arena.Committed(), arena.Pending();
      assert |p| >= HEADER;
      var _ := arena.AddChar('\0');
      ref := arena.Commit();
      if ref == 0 {
        err := err + {OutOfMem};
        lineNum, column := line, col;
      } else {
        arena.Poke(ref, Fields(Code(t), Position(line, col), emittedCnt));
        if p == Zeros(HEADER) + text && emittedCnt == |text| {
          HeaderFilled(c, p, Token(Code(t), Position(line, col), text));
        }
      }
    }

    /** The transaction begins, with room for the header. */
    method OpenToken(arena: MArena) returns (ok: bool)
      requires Valid() && emittedCnt == 0 && arena.Valid() && !arena.IsOpen()
      modifies arena
      ensures Valid() && arena.Valid() && arena.Committed() == old(arena.Committed()) && arena.IsOpen() == ok
      ensures ok <==>
        HeaderTaken(old(arena.dataSize), |old(arena.buffer)|, arena.canRealloc, arena.kernel(old(arena.asked)))
      ensures ok ==> (
        var v := See(arena);
        && v.committed == old(arena.Committed()) && v.pending == Zeros(HEADER)
        && v.emitted == 0 && v.rest == rest && v.at == Pos() && v.gate == GateNow())
      ensures ok ==> arena.stagingSize == arena.dataSize + HEADER
      ensures var s := AddTo(Opened(old(arena.StoreNow())), HEADER);
        ok == !s.failed && arena.StoreNow() == if ok then s else AtRest(s)
    {
      hide LexerState.Valid;
      arena.Begin();
      ok := arena.AddZeros(HEADER);
      if !ok {
        arena.Dismiss();
      }
    }

    /** The part of `lexer_next_token` that makes a token. */
    method MakeToken(arena: MArena) returns (more: bool, ref: MRef)
      requires Valid() && staging.looked == 0 && emittedCnt == 0 && arena.Valid() && !arena.IsOpen()
      modifies this`rest, this`pads, this`err, this`lineNum, this`column, this`emittedCnt
      modifies staging, staging.buf, stream, stream.buffer
      modifies arena
      ensures Valid() && staging.looked == 0 && arena.Valid() && !arena.IsOpen()
      ensures more <==>
        HeaderTaken(old(arena.dataSize), |old(arena.buffer)|, arena.canRealloc, arena.kernel(old(arena.asked)))
      ensures Made(old(rest), old(Pos()), old(GateNow()), old(arena.Committed()), old(err),
                   more, ref, rest, Pos(), GateNow(), arena.Committed(), err)
      ensures var s := WithToken(old(arena.StoreNow()), |CutFirst(old(rest), old(GateNow())).text|);
        (ref != 0 <==> !s.failed) && arena.StoreNow() == AtRest(s)
    {
      hide LexerState.Valid, MArena.Valid, AddTo, AddOnes, Moved, Takes, Bytes, CutFirst;
      var line, col := lineNum, column;
      ghost var q, g, e := Pos(), GateNow(), err;
      ref := 0;
      ghost var s := AddTo(Opened(arena.StoreNow()), HEADER);
      more := OpenToken(arena);
      if !more {
        FailedKeeps(s, |CutFirst(rest, g).text| + 1);
        return;
      }
      ghost var v := See(arena);
      var t := LexLogic(arena);
      ghost var w := See(arena);
      ghost var c := CutFirst(v.rest, g);
      CutMoved(v, w, c);
      OneMore(s, |c.text|);
      ref := CloseToken(arena, t, line, col, c.text);
      Undo();
      MadeIs(v.rest, q, g, v.committed, e, ref, rest, Pos(), GateNow(), arena.Committed(), err);
    }

    /** The start of `lexer_next_token`: errors are cleared, and blanks are skipped if asked for. */
    method Prepare() returns (end: bool)
      requires Valid() && staging.looked == 0
      modifies this`rest, this`pads, this`err, this`lineNum, this`column, this`emittedCnt
      modifies staging, staging.buf, stream, stream.buffer
      ensures Valid() && staging.looked == 0 && emittedCnt == 0
      ensures var r := Skip(old(rest), |old(staging.staged)|, eatWhitespaces);
        && rest == old(rest)[r.n..] && Pos() == Advance(old(Pos()), old(rest)[..r.n])
        && GateNow() == r.gate && err == Reported({}, r.gate) && (end <==> EndsAt(r.gate, rest))
    {
      emittedCnt, err := 0, {};
      SkipNothing(rest, Pos());
      assert GateNow() == Gate(|staging.staged|, true, false);
      SkipsNothing(rest, |staging.staged|, eatWhitespaces);
      end := IsEnd();
      if !end && eatWhitespaces {
        EatWhitespaces();
        end := IsEnd();
      }
    }

    /** `lexer_next_token`.  It returns false at the end, and also, reporting nothing, where the arena does not take the
        header of a token. */
    method NextToken(arena: MArena) returns (more: bool, ref: MRef)
      requires Valid() && staging.looked == 0 && arena.Valid() && !arena.IsOpen()
      modifies this`rest, this`pads, this`err, this`lineNum, this`column, this`emittedCnt
      modifies staging, staging.buf, stream, stream.buffer
      modifies arena
      ensures Valid() && staging.looked == 0 && arena.Valid() && !arena.IsOpen()
      ensures var s := Skip(old(rest), |old(staging.staged)|, eatWhitespaces);
        var r, q := old(rest)[s.n..], Advance(old(Pos()), old(rest)[..s.n]);
        if EndsAt(s.gate, r) || s.gate.flagged then
          && more == !EndsAt(s.gate, r) && ref == 0 && rest == r && Pos() == q && GateNow() == s.gate
          && err == Reported({}, s.gate) && arena.Committed() == old(arena.Committed())
          && arena.StoreNow() == old(arena.StoreNow())
        else
          && (more <==>
            HeaderTaken(old(arena.dataSize), |old(arena.buffer)|, arena.canRealloc, arena.kernel(old(arena.asked))))
          && Made(r, q, s.gate, old(arena.Committed()), {}, more, ref, rest, Pos(), GateNow(), arena.Committed(), err)
          && var t := WithToken(old(arena.StoreNow()), |CutFirst(r, s.gate).text|);
          (ref != 0 <==> !t.failed) && arena.StoreNow() == AtRest(t)
    {
      assert staging.IsUndone();
      ref := 0;
      var end := Prepare();
      if end {
        return false, 0;
      }
      more := true;
      if err == {} {
        end := IsEnd();
        if !end {
          more, ref := MakeToken(arena);
        }
      }
    }

    /** Where the lexer stands between two calls. */
    ghost function Stand(): (p: Point)
      requires Valid()
      reads this, staging, staging.buf, stream, stream.buffer
      ensures p.rest == rest
    {
      Point(rest, Pos(), |staging.staged|)
    }

    /** One turn of the documented loop over the input. */
    method TokeniseOne(arena: MArena) returns (go: bool, complete: bool, ghost t: Token)
      requires Valid() && staging.looked == 0 && arena.Valid() && !arena.IsOpen()
      modifies this`rest, this`pads, this`err, this`lineNum, this`column, this`emittedCnt
      modifies staging, staging.buf, stream, stream.buffer
      modifies arena
      ensures Valid() && staging.looked == 0 && arena.Valid() && !arena.IsOpen() && |arena.Committed()| <= U32_MAX
      ensures var turn := TurnAt(old(Stand()), eatWhitespaces);
        if go then
          && !complete && turn == Makes(t, Stand()) && arena.Committed() == old(arena.Committed()) + Bytes(t)
        else
          && arena.Committed() == old(arena.Committed()) && (complete ==> turn.Ended? && EndsAt(GateNow(), rest))
      ensures var turn := TurnAt(old(Stand()), eatWhitespaces);
        match turn
        case Ended => !go && (complete || InvalidInputBytes in err) && (Clean(old(rest)) ==> complete)
        case Makes(u, _) =>
          && go == !WithToken(old(arena.StoreNow()), |u.text|).failed
          && var (left, n) := (LeftIn(old(arena.StoreNow())), |Bytes(u)|);
          left > n ==> go && LeftIn(arena.StoreNow()) >= left - n
    {
      hide LeftIn, WithToken, AtRest, AddTo, AddOnes, Bytes, Code;
      ghost var p := Stand();
      CleanEnded(p, eatWhitespaces);
      TurnTaken(p, eatWhitespaces, arena.StoreNow());
      var more, ref := NextToken(arena);
      go, complete := ref != 0, false;
      t := Token(0, p.at, "");
      if ref == 0 {
        var end := IsEnd();
        complete := !more && end;
      } else {
        t := TurnAt(p, eatWhitespaces).token;
      }
    }

    /** The documented loop over any input, until it ends or an error is reported: the committed bytes are always packed
        tokens, and they are those of as many calls.  It always comes to an end, if only that of the memory. */
    method Tokenise(arena: MArena) returns (complete: bool, ghost ts: seq<Token>)
      requires Valid() && staging.looked == 0 && arena.Valid() && !arena.IsOpen()
      modifies this`rest, this`pads, this`err, this`lineNum, this`column, this`emittedCnt
      modifies staging, staging.buf, stream, stream.buffer
      modifies arena
      ensures Valid() && arena.Valid() && !arena.IsOpen()
      ensures arena.Committed() == old(arena.Committed()) + Packed(ts)
      ensures ts == Cuts(old(Stand()), eatWhitespaces, |ts|)
      ensures complete ==> EndsAt(GateNow(), rest) && AreAll(old(Stand()), eatWhitespaces, ts)
      ensures Roomy(old(Stand()), eatWhitespaces, LeftIn(old(arena.StoreNow()))) ==>
        complete || (InvalidInputBytes in err && !Clean(old(rest)))
    {
      hide *;
      CommittedBounded(arena);
      ghost var p, eat, c, room := Stand(), eatWhitespaces, arena.Committed(), LeftIn(arena.StoreNow());
      ts := [];
      complete := false;
      Sets(p, eat, c, room);
      var go := true;
      while go
        invariant Valid() && staging.looked == 0 && arena.Valid() && !arena.IsOpen() && |arena.Committed()| <= U32_MAX
        invariant go ==> Underway(p, eat, c, room, ts, Stand(), arena.Committed(), LeftIn(arena.StoreNow()))
        invariant !go ==> Done(p, eat, c, room, ts, arena.Committed(), complete, InvalidInputBytes in err)
        invariant complete ==> !go && EndsAt(GateNow(), rest)
        decreases go, U32_MAX - |arena.Committed()|
      {
        ghost var q, was, left := Stand(), arena.Committed(), LeftIn(arena.StoreNow());
        ghost var t: Token;
        go, complete, t := TokeniseOne(arena);
        if go {
          GoesOn(p, eat, c, room, ts, q, was, left, t, Stand(), arena.Committed(), LeftIn(arena.StoreNow()));
          ts := ts + [t];
        } else {
          Stops(p, eat, c, room, ts, q, was, left, complete, InvalidInputBytes in err);
        }
      }
      DoneMeans(p, eat, c, room, ts, arena.Committed(), complete, InvalidInputBytes in err);
    }
  }

  // ---------------------------------------------------------------- what the proofs of the methods share

  lemma ShownNothing(g: Gate)
    ensures Shown(g, "") == "" && Shown(g, Take("", 0)) == ""
    ensures forall s :: Shown(g, Take(s, 0)) == "" && Take(s, 0) == ""
  {
  }

  lemma MovedSame(v: View, u: View, w: View, used: string, text: string)
    requires u.(gate := v.gate) == v && Moved(u, w, used, text)
    ensures Moved(v, w, used, text)
  {
  }

  lemma FlaggedOn(g: Gate, rest: string, m: nat, n: nat)
    requires m <= n
    ensures (g.flagged ==> Look(g, rest, m).flagged) && (Look(g, rest, m).flagged ==> Look(g, rest, n).flagged)
  {
  }

  /** Reporting twice is reporting once. */
  lemma ReportedOn(e: set<LexerErr>, g: Gate, g': Gate)
    requires g.flagged ==> g'.flagged
    ensures Reported(Reported(e, g), g') == Reported(e, g')
  {
  }

  /** `n` more characters are skipped. */
  lemma SkipNothing(r: string, p: Position)
    ensures r[0..] == r && r[..0] == "" && Advance(p, r[..0]) == p
  {
  }

  lemma SkipOneMore(r: string, p: Position, n: nat)
    requires n < |r|
    ensures r[n..][0] == r[n] && r[n..][1..] == r[n + 1..]
    ensures Advance(p, r[..n + 1]) == Step(Advance(p, r[..n]), r[n])
  {
    assert r[..n + 1] == r[..n] + [r[n]];
    AdvanceOne(p, r[..n], r[n]);
  }

  /** One round of the loops over a class. */
  ghost predicate RanOne(k: Class, u: View, w: View, err: set<LexerErr>, err': set<LexerErr>, go: bool) {
    && (go <==> !EndsAt(u.gate, u.rest) && In(k, u.rest[0])) && err' == Reported(err, w.gate)
    && (if go then
          var g := Look(u.gate, u.rest, 1);
          w.rest == u.rest[1..] && Moved(u, w, [u.rest[0]], Shown(g, [u.rest[0]])) && w.gate == Consume(g, 1)
        else if EndsAt(u.gate, u.rest) then w == u
        else w == u.(gate := Look(u.gate, u.rest, 1)))
  }

  /** After `n` rounds that emitted `text`, more to come or not. */
  ghost predicate Running(k: Class, v: View, w: View, e: set<LexerErr>, err: set<LexerErr>, n: nat, text: string,
                          go: bool)
  {
    && err == Reported(e, w.gate) && Moved(v, w, Take(v.rest, n), text)
    && if go then RunSoFar(k, v.rest, v.gate, n, text, w.rest, w.gate)
       else RunOf(k, v.rest, v.gate) == Run(n, text, w.gate)
  }

  lemma RunBegins(k: Class, v: View, e: set<LexerErr>)
    requires v.gate.flagged ==> InvalidInputBytes in e
    ensures Running(k, v, v, e, e, 0, "", true)
  {
    RunStarts(k, v.rest, v.gate);
    MovedNot(v, v.gate);
  }

  lemma RunTurns(k: Class, v: View, u: View, w: View, e: set<LexerErr>, f: set<LexerErr>, err: set<LexerErr>, n: nat,
                 text: string, go: bool)
    requires Running(k, v, u, e, f, n, text, true) && RanOne(k, u, w, f, err, go)
    ensures go ==>
      u.rest != "" && Running(k, v, w, e, err, n + 1, text + Shown(Look(u.gate, u.rest, 1), [u.rest[0]]), true)
    ensures !go ==> Running(k, v, w, e, err, n, text, false)
  {
    RunGoesOn(k, v.rest, v.gate, n, text, u.rest, u.gate);
    if go {
      RunMoved(v, u, w, n, text, Shown(Look(u.gate, u.rest, 1), [u.rest[0]]));
    }
  }

  lemma RunMoved(v: View, u: View, w: View, n: nat, text: string, t: string)
    requires n < |v.rest| && u.rest == v.rest[n..] && Moved(v, u, Take(v.rest, n), text)
    requires Moved(u, w, [u.rest[0]], t)
    ensures Moved(v, w, Take(v.rest, n + 1), text + t)
  {
    assert Take(v.rest, n) + [u.rest[0]] == Take(v.rest, n + 1);
    MovedOn(v, u, w, Take(v.rest, n), text, [u.rest[0]], t);
  }

  lemma AtMostThree(s: string)
    ensures MunchAt(s).1 <= 3
  {
  }

  /** A round takes nothing from the room that the rest of the scan needs. */
  lemma FitsOn(rest: string, skew: nat, d: char, g: Gate, room: nat)
    requires ReadFits(rest, skew, d, g, room)
    ensures !EndsAt(g, rest) ==> skew + StringLooks(rest, skew) <= room
  {
  }

  /** One round of the loop over a string literal. */
  ghost predicate Stepped(v: View, w: View, err: set<LexerErr>, err': set<LexerErr>, k: nat, d: char,
                          stop: Option<Stop>)
  {
    var (r, g) := StringStep(v.rest, k, d, v.gate);
    && stop == r.stop && Moved(v, w, r.used, r.text) && w.gate == g && err' == AfterRound(Reported(err, g), stop)
  }

  lemma EndSteps(v: View, e: set<LexerErr>, k: nat, d: char)
    requires v.gate.flagged ==> InvalidInputBytes in e
    ensures EndsAt(v.gate, v.rest) ==> Stepped(v, v, e, e, k, d, Some(Exhausted))
  {
    MovedNot(v, v.gate);
  }

  lemma ActSteps(v: View, u: View, w: View, e: set<LexerErr>, f: set<LexerErr>, err: set<LexerErr>, k: nat, d: char,
                 stop: Option<Stop>)
    requires !EndsAt(v.gate, v.rest) && u == v.(gate := Look(v.gate, v.rest, k + StringLooks(v.rest, k)))
    requires f == Reported(e, u.gate)
    requires var r := StringRound(v.rest, k, d);
      && stop == r.stop && err == AfterRound(f, stop)
      && Moved(u, w, r.used, Shown(u.gate, r.text)) && w.gate == Consume(u.gate, |r.used|)
    ensures Stepped(v, w, e, err, k, d, stop)
  {
    var r := StringRound(v.rest, k, d);
    MovedSame(v, u, w, r.used, Shown(u.gate, r.text));
  }

  lemma StepFitsOn(rest: string, skew: nat, d: char, room: nat, g: Gate)
    requires ReadFits(rest, skew, d, g, room)
    ensures var (r, g') := StringStep(rest, skew, d, g);
      && (g.flagged ==> g'.flagged)
      && (r.stop.None? ==> ReadFits(Drop(rest, |r.used|), r.skew, d, g', room) && |Drop(rest, |r.used|)| < |rest|)
  {
  }

  lemma CommentStepLess(rest: string, g: Gate)
    ensures var (r, g') := CommentStep(rest, g);
      && (g.flagged ==> g'.flagged)
      && (r.stop.None? ==> |Drop(rest, |r.used|)| < |rest|)
  {
  }

  lemma {:induction false} StringFlags(rest: string, skew: nat, d: char, g: Gate)
    ensures g.flagged ==> ReadString(rest, skew, d, g).1.flagged
    decreases |rest|
  {
    var (r, g') := StringStep(rest, skew, d, g);
    if r.stop.None? {
      StringFlags(Drop(rest, |r.used|), r.skew, d, g');
    }
  }

  lemma {:induction false} CommentFlags(rest: string, g: Gate)
    ensures g.flagged ==> ReadComment(rest, g).1.flagged
    decreases |rest|
  {
    var (r, g') := CommentStep(rest, g);
    if r.stop.None? {
      CommentFlags(Drop(rest, |r.used|), g');
    }
  }

  /** What is left behind a run of blanks, in bytes. */
  lemma BlanksGone(r: string, g: Gate, rest: string)
    requires rest == r[RunOf(Blank, r, g).n..]
    ensures var n := |r| - |rest|;
      && 0 <= n && rest == r[n..]
      && (forall i :: 0 <= i < n ==> 9 <= r[i] as int <= 13 || r[i] as int == 32)
      && (rest != "" ==> !(9 <= rest[0] as int <= 13 || rest[0] as int == 32))
  {
    BlanksAreAll(r, g);
    BlanksAre(r);
  }

  /** A line break in a string literal is reported. */
  function AfterRound(err: set<LexerErr>, stop: Option<Stop>): set<LexerErr> {
    if stop == Some(Broken) then err + {InvalidString} else err
  }

  lemma Empties(a: string, b: string)
    ensures a + "" == a && "" + b == b
  {
  }

  /** The first `n` characters are those of `s`. */
  predicate Starts(rest: string, s: string, n: nat)
    requires n <= |s|
  {
    forall j :: 0 <= j < n ==> At(rest, j) == s[j]
  }

  lemma StartsOn(rest: string, s: string, n: nat)
    requires n <= |s|
    ensures Starts(rest, s, 0)
    ensures n < |s| ==> (Starts(rest, s, n + 1) <==> Starts(rest, s, n) && At(rest, n) == s[n])
    ensures Starts(rest, s, |s|) <==> Take(rest, |s|) == s
  {
  }

  lemma TakeOne(s: string)
    ensures Take(s, 1) == [At(s, 0)]
  {
  }

  lemma RejectNone(r: string, p: Position)
    ensures Drop(r, 0) == r && Advance(p, Take(r, 0)) == p
  {
  }

  lemma RejectOneMore(r: string, p: Position, i: nat)
    ensures Drop(Drop(r, i), 1) == Drop(r, i + 1)
    ensures Advance(p, Take(r, i + 1)) == Step(Advance(p, Take(r, i)), At(Drop(r, i), 0))
  {
    TakeMore(r, i, 1);
    TakeOne(Drop(r, i));
    AdvanceOne(p, Take(r, i), At(Drop(r, i), 0));
  }

  lemma HeaderFilled(c: string, p: string, t: Token)
    requires p == Zeros(HEADER) + t.text
    ensures var d, f := c + (p + "\0"), Fields(t.tokenType, t.at, |t.text|);
      d[..|c|] + f + d[|c| + HEADER..] == c + Bytes(t)
  {
  }

  // ---------------------------------------------------------------- tokens

  /** The arena takes the header of a token. */
  predicate HeaderTaken(dataSize: nat, capacity: nat, canRealloc: bool, granted: bool) {
    Takes(dataSize, dataSize, HEADER, capacity, canRealloc, granted)
  }

  /** That is, there are more than sixteen bytes left, or the kernel grants one growth step that makes room for them. */
  lemma HeaderTakenIff(dataSize: nat, capacity: nat, canRealloc: bool, granted: bool)
    requires capacity <= U32_MAX
    ensures HeaderTaken(dataSize, capacity, canRealloc, granted) <==>
      || dataSize + 16 < capacity
      || (canRealloc && granted && capacity < 0xFFFF_FFFF && dataSize + 16 <= GrownSize(capacity))
  {
    TakesIff(dataSize, dataSize, HEADER, capacity, canRealloc, granted);
    hide GrownSize, Takes;
  }

  /** What making a token from `r` at `q` comes to: a new token behind the committed ones, or no memory. */
  ghost predicate Made(r: string, q: Position, g: Gate, committed: string, err: set<LexerErr>, more: bool, ref: MRef,
    r': string, q': Position, g': Gate, committed': string, err': set<LexerErr>)
  {
    var c := CutFirst(r, g);
    && (!more ==> ref == 0 && r' == r && q' == q && g' == g && committed' == committed && err' == err)
    && (more ==> r' == Drop(r, c.n))
    && (more && ref == 0 ==>
      q' == q && g' == c.gate.(emits := false) && committed' == committed && err' == Reported(err, c.gate) + {OutOfMem})
    && (ref != 0 ==>
      && more && ref == |committed| && committed' == committed + Bytes(Token(Code(c.kind), q, c.text))
      && q' == Advance(q, Take(r, c.n)) && g' == c.gate && err' == Reported(err, c.gate))
  }

  /** A transaction begins, and ends with or without what was added. */
  function Opened(s: Store): Store {
    s.(stagingSize := s.dataSize, failed := false)
  }

  function AtRest(s: Store): Store {
    s.(dataSize := if s.failed then s.dataSize else s.stagingSize, stagingSize := 0, failed := false)
  }

  /** A token with a text of `n` characters: its header at once, then the text and the terminator one by one. */
  ghost function WithToken(s: Store, n: nat): Store {
    AddOnes(AddTo(Opened(s), HEADER), n + 1)
  }

  /** The token is taken as long as there is room for it; without growth exactly then; and, with all memory granted, up
      to the top of the word. */
  lemma TokenTaken(s: Store, n: nat)
    requires s.dataSize <= s.capacity <= U32_MAX
    ensures var t, end := WithToken(s, n), s.dataSize + 16 + n + 1;
      && t.dataSize == s.dataSize && t.canRealloc == s.canRealloc && t.kernel == s.kernel
      && (!t.failed ==> t.stagingSize == end) && t.capacity >= s.capacity
      && (end < s.capacity ==> !t.failed)
      && (!s.canRealloc ==> (!t.failed <==> end < s.capacity))
      && (s.canRealloc && (forall i :: s.kernel(i)) && end < U32_MAX ==> !t.failed)
  {
    var h := AddTo(Opened(s), HEADER);
    GrownSizeIs(s.capacity);
    TakesIff(s.dataSize, s.dataSize, HEADER, s.capacity, s.canRealloc, s.kernel(s.asked));
    hide GrownSize, AddOnes;
    if h.failed {
      FailedKeeps(h, n + 1);
    } else {
      OnesTaken(h, n + 1);
    }
  }

  /** Bytes that can be had behind the committed ones. */
  ghost function LeftIn(s: Store): int {
    Top(s) - s.dataSize
  }

  /** Where that many are left, the token of a turn is taken, and as much less is left. */
  lemma TurnTaken(p: Point, eat: bool, s: Store)
    requires s.dataSize <= s.capacity <= U32_MAX
    ensures match TurnAt(p, eat)
      case Ended => true
      case Makes(u, _) =>
        var (t, left, n) := (WithToken(s, |u.text|), LeftIn(s), |Bytes(u)|);
        left > n ==> !t.failed && LeftIn(AtRest(t)) >= left - n
  {
    hide WithToken, TurnAt;
    if TurnAt(p, eat).Makes? {
      TokenTaken(s, |TurnAt(p, eat).token.text|);
    }
  }

  /** Between the header and the terminator. */
  lemma CutMoved(v: View, w: View, c: Cut)
    requires !v.store.failed && v.pending == Zeros(HEADER) && v.emitted == 0
    requires Moved(v, w, Take(v.rest, c.n), c.text)
    ensures !w.store.failed ==> w.pending == Zeros(HEADER) + c.text
    ensures w.emitted == |c.text| && w.committed == v.committed && w.store == AddOnes(v.store, |c.text|)
    ensures w.rest == Drop(v.rest, c.n) && w.at == Advance(v.at, Take(v.rest, c.n))
  {
  }

  lemma MadeIs(r: string, q: Position, g: Gate, committed: string, err: set<LexerErr>, ref: MRef,
    r': string, q': Position, g': Gate, committed': string, err': set<LexerErr>)
    requires var c := CutFirst(r, g);
      && r' == Drop(r, c.n)
      && (ref == 0 ==>
        q' == q && g' == c.gate.(emits := false) && committed' == committed &&
          err' == Reported(err, c.gate) + {OutOfMem})
      && (ref != 0 ==>
        && ref == |committed| && committed' == committed + Bytes(Token(Code(c.kind), q, c.text))
        && q' == Advance(q, Take(r, c.n)) && g' == c.gate && err' == Reported(err, c.gate))
    ensures Made(r, q, g, committed, err, true, ref, r', q', g', committed', err')
  {
  }

  lemma CutFlags(rest: string, g: Gate)
    ensures Look(g, rest, 1).flagged ==> CutFirst(rest, g).gate.flagged
  {
    RunEmits(Blank, rest, Look(g, rest, 1));
    RunEmits(Word, rest, Look(g, rest, 1));
  }

  /** The arena has room for all tokens that are made. */
  ghost predicate Roomy(p: Point, eat: bool, room: int) {
    forall n: nat :: |Packed(Cuts(p, eat, n))| < room
  }

  lemma {:induction false} FrontIsShorter(ts: seq<Token>, us: seq<Token>)
    ensures |Packed(ts)| <= |Packed(ts + us)|
  {
    if ts == [] {
      assert ts + us == us;
    } else {
      assert (ts + us)[1..] == ts[1..] + us;
      FrontIsShorter(ts[1..], us);
    }
  }

  lemma CutsAreShorter(p: Point, eat: bool, n: nat)
    requires Clean(p.rest) && Lexable(p.rest)
    ensures var all := TokensOf(p.rest, p.at, eat);
      |Packed(Cuts(p, eat, n))| <= |Packed(all)| && Cuts(p, eat, |all|) == all
  {
    var all := TokensOf(p.rest, p.at, eat);
    hide *;
    CleanCuts(p, eat, n);
    SomeAreShorter(Cuts(p, eat, n), all, n);
    CleanCuts(p, eat, |all|);
    assert all[..|all|] == all;
  }

  lemma SomeAreShorter(ts: seq<Token>, all: seq<Token>, n: nat)
    requires ts == if n <= |all| then all[..n] else all
    ensures |Packed(ts)| <= |Packed(all)|
  {
    hide Packed;
    FrontIsShorter(ts, all[|ts|..]);
    assert all == ts + all[|ts|..];
  }

  /** For valid characters with a case, that is room for the tokens of the input. */
  lemma RoomyIff(p: Point, eat: bool, room: int)
    requires Clean(p.rest) && Lexable(p.rest)
    ensures Roomy(p, eat, room) <==> |Packed(TokensOf(p.rest, p.at, eat))| < room
  {
    hide Clean, Lexable, TokensOf, Cuts, Packed;
    CutsAreShorter(p, eat, 0);
    forall n: nat ensures |Packed(Cuts(p, eat, n))| <= |Packed(TokensOf(p.rest, p.at, eat))| {
      CutsAreShorter(p, eat, n);
    }
  }

  lemma RoomForNext(p: Point, eat: bool, ts: seq<Token>, q: Point, room: int)
    requires Led(p, eat, ts, q) && TurnAt(q, eat).Makes?
    ensures Roomy(p, eat, room) ==> room - |Packed(ts)| > |Bytes(TurnAt(q, eat).token)|
    ensures |Packed(ts + [TurnAt(q, eat).token])| == |Packed(ts)| + |Bytes(TurnAt(q, eat).token)|
  {
    LedOn(p, eat, ts, q);
    PackedAppend(ts, TurnAt(q, eat).token);
  }

  lemma CommittedBounded(arena: MArena)
    requires arena.Valid()
    ensures |arena.Committed()| <= U32_MAX
  {
  }

  /** Between two turns: `ts` was made since the lexer stood at `p`, and it stands at `q` now. */
  ghost predicate Underway(p: Point, eat: bool, c: string, room: int, ts: seq<Token>, q: Point, committed: string,
      left: int)
  {
    && Led(p, eat, ts, q) && committed == c + Packed(ts) && (Clean(p.rest) ==> Clean(q.rest))
    && (Roomy(p, eat, room) ==> left >= room - |Packed(ts)|)
  }

  /** Behind the last turn. */
  ghost predicate Done(p: Point, eat: bool, c: string, room: int, ts: seq<Token>, committed: string, complete: bool,
      invalid: bool)
  {
    && committed == c + Packed(ts) && ts == Cuts(p, eat, |ts|) && (complete ==> AreAll(p, eat, ts))
    && (Roomy(p, eat, room) ==> complete || (invalid && !Clean(p.rest)))
  }

  lemma DoneMeans(p: Point, eat: bool, c: string, room: int, ts: seq<Token>, committed: string, complete: bool,
      invalid: bool)
    requires Done(p, eat, c, room, ts, committed, complete, invalid)
    ensures committed == c + Packed(ts) && ts == Cuts(p, eat, |ts|) && (complete ==> AreAll(p, eat, ts))
    ensures Roomy(p, eat, room) ==> complete || (invalid && !Clean(p.rest))
  {
  }

  lemma Sets(p: Point, eat: bool, c: string, room: int)
    ensures Underway(p, eat, c, room, [], p, c, room)
  {
    LedNowhere(p, eat);
  }

  lemma GoesOn(p: Point, eat: bool, c: string, room: int, ts: seq<Token>, q: Point, committed: string, left: int,
      t: Token, q': Point, committed': string, left': int)
    requires Underway(p, eat, c, room, ts, q, committed, left)
    requires TurnAt(q, eat) == Makes(t, q') && committed' == committed + Bytes(t)
    requires left > |Bytes(t)| ==> left' >= left - |Bytes(t)|
    ensures Underway(p, eat, c, room, ts + [t], q', committed', left') && |committed'| > |committed|
  {
    LedOn(p, eat, ts, q);
    RoomForNext(p, eat, ts, q, room);
    CleanNext(q, eat);
    CommitOne(c, ts, t);
    hide Led, TurnAt, Packed, Bytes, Clean, Roomy;
  }

  lemma Stops(p: Point, eat: bool, c: string, room: int, ts: seq<Token>, q: Point, committed: string, left: int,
      complete: bool, invalid: bool)
    requires Underway(p, eat, c, room, ts, q, committed, left)
    requires complete ==> TurnAt(q, eat).Ended?
    requires match TurnAt(q, eat)
      case Ended => (complete || invalid) && (Clean(q.rest) ==> complete)
      case Makes(t, _) => left <= |Bytes(t)|
    ensures Done(p, eat, c, room, ts, committed, complete, invalid)
  {
    LedIs(p, eat, ts, q);
    if TurnAt(q, eat).Makes? {
      RoomForNext(p, eat, ts, q, room);
    }
    hide Led, TurnAt, Packed, Bytes, Clean, Roomy;
  }

  lemma CommitOne(c: string, ts: seq<Token>, t: Token)
    ensures c + Packed(ts) + Bytes(t) == c + Packed(ts + [t]) && |Bytes(t)| > 0
  {
    PackedAppend(ts, t);
    Associative(c, Packed(ts), Bytes(t));
  }
}

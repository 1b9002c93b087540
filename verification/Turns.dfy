/** What calls of the lexer, one after the other, cut off any input. */
module Turns {
  import opened Tokens
  import opened Characters
  import opened Gates
  import opened TokenTable
  import opened Punctuators
  import opened Tokenising

  /** Where a lexer stands between two calls: the rest of the input, its position, and how many characters of it were
      read before. */
  datatype Point = Point(rest: string, at: Position, staged: nat)

  datatype Turn = Ended | Makes(token: Token, next: Point)

  /** Blanks in front of a token: how many, and the gate behind them. */
  function Skip(rest: string, staged: nat, eat: bool): (r: Run)
    ensures r.n <= |rest|
  {
    var g := Gate(staged, true, false);
    if eat then RunOf(Blank, rest, g) else Run(0, "", g)
  }

  lemma SkipsNothing(rest: string, staged: nat, eat: bool)
    ensures var g := Gate(staged, true, false);
      !eat || EndsAt(g, rest) ==> Skip(rest, staged, eat) == Run(0, "", g)
  {
  }

  lemma TokensStep(s: string, p: Position, eat: bool)
    requires Clean(s) && Lexable(s)
    ensures var b := Skipped(s, eat);
      var r, q := s[b..], Advance(p, s[..b]);
      && Clean(r) && (r == "" ==> TokensOf(s, p, eat) == [])
      && (r != "" ==>
        var n := First(r).1;
        && TokensOf(s, p, eat) == [FirstToken(r, q)] + TokensOf(Drop(r, n), Advance(q, Take(r, n)), eat)
        && Clean(Drop(r, n)) && Lexable(Drop(r, n)) && |Drop(r, n)| < |s|)
  {
    var b := Skipped(s, eat);
    var r := s[b..];
    CleanDrop(s, b);
    if r != "" {
      FirstConsumes(r);
      CleanDrop(r, First(r).1);
      TakeWithin(r, First(r).1);
    }
  }

  /** What one call makes: nothing at the end or at an invalid byte that was reported, or else a token. */
  function TurnAt(p: Point, eat: bool): Turn {
    var s := Skip(p.rest, p.staged, eat);
    var r, q := p.rest[s.n..], Advance(p.at, p.rest[..s.n]);
    if EndsAt(s.gate, r) || s.gate.flagged then Ended
    else
      var c := CutFirst(r, s.gate);
      Makes(Token(Code(c.kind), q, c.text), Point(Drop(r, c.n), Advance(q, Take(r, c.n)), c.gate.staged))
  }

  /** The tokens of the next `n` calls. */
  function Cuts(p: Point, eat: bool, n: nat): seq<Token>
    decreases n
  {
    if n == 0 || TurnAt(p, eat).Ended? then []
    else [TurnAt(p, eat).token] + Cuts(TurnAt(p, eat).next, eat, n - 1)
  }

  /** After some calls that made `ts`, the lexer stands at `p`. */
  ghost predicate Led(start: Point, eat: bool, ts: seq<Token>, p: Point) {
    forall n :: n >= |ts| ==> Cuts(start, eat, n) == ts + Cuts(p, eat, n - |ts|)
  }

  /** No number of calls makes more tokens than these. */
  ghost predicate AreAll(start: Point, eat: bool, ts: seq<Token>) {
    forall n :: n >= |ts| ==> Cuts(start, eat, n) == ts
  }

  lemma LedNowhere(p: Point, eat: bool)
    ensures Led(p, eat, [], p)
  {
  }

  lemma CutsOn(p: Point, eat: bool, n: nat)
    requires n > 0 && TurnAt(p, eat).Makes?
    ensures Cuts(p, eat, n) == [TurnAt(p, eat).token] + Cuts(TurnAt(p, eat).next, eat, n - 1)
  {
  }

  lemma CutsOver(p: Point, eat: bool, n: nat)
    requires n == 0 || TurnAt(p, eat).Ended?
    ensures Cuts(p, eat, n) == []
  {
  }

  lemma OneLonger(ts: seq<Token>, t: Token, us: seq<Token>)
    ensures ts + ([t] + us) == ts + [t] + us && |ts + [t]| == |ts| + 1 && ts + [] == ts
  {
  }

  lemma LedMeans(start: Point, eat: bool, ts: seq<Token>, p: Point, n: nat)
    requires Led(start, eat, ts, p) && n >= |ts|
    ensures Cuts(start, eat, n) == ts + Cuts(p, eat, n - |ts|)
  {
  }

  /** The tokens made so far are those of as many calls. */
  lemma LedIs(start: Point, eat: bool, ts: seq<Token>, p: Point)
    requires Led(start, eat, ts, p)
    ensures Cuts(start, eat, |ts|) == ts
    ensures TurnAt(p, eat).Ended? ==> AreAll(start, eat, ts)
  {
    LedMeans(start, eat, ts, p, |ts|);
    CutsOver(p, eat, 0);
    hide TurnAt, Cuts, Led;
    if TurnAt(p, eat).Ended? {
      forall n | n >= |ts| ensures Cuts(start, eat, n) == ts {
        LedMeans(start, eat, ts, p, n);
        CutsOver(p, eat, n - |ts|);
      }
    }
  }

  lemma LedOn(start: Point, eat: bool, ts: seq<Token>, p: Point)
    requires Led(start, eat, ts, p) && TurnAt(p, eat).Makes?
    ensures Led(start, eat, ts + [TurnAt(p, eat).token], TurnAt(p, eat).next)
    ensures Cuts(start, eat, |ts| + 1) == ts + [TurnAt(p, eat).token]
  {
    hide TurnAt, Cuts;
    var t, q := TurnAt(p, eat).token, TurnAt(p, eat).next;
    forall n | n >= |ts + [t]| ensures Cuts(start, eat, n) == ts + [t] + Cuts(q, eat, n - |ts + [t]|) {
      hide *;
      OneLonger(ts, t, Cuts(q, eat, n - |ts| - 1));
      LedMeans(start, eat, ts, p, n);
      CutsOn(p, eat, n - |ts|);
    }
    LedIs(start, eat, ts + [t], q);
  }

  // ---------------------------------------------------------------- clean input

  lemma CleanTurn(p: Point, eat: bool)
    requires Clean(p.rest)
    ensures var b := Skipped(p.rest, eat);
      var r, q := p.rest[b..], Advance(p.at, p.rest[..b]);
      && Clean(r) && (TurnAt(p, eat).Ended? <==> r == "")
      && (r != "" ==>
        var n := First(r).1;
        && TurnAt(p, eat).token == FirstToken(r, q)
        && TurnAt(p, eat).next.rest == Drop(r, n) && TurnAt(p, eat).next.at == Advance(q, Take(r, n)))
  {
    var s := Skip(p.rest, p.staged, eat);
    var r := p.rest[s.n..];
    CleanRun(Blank, p.rest, Gate(p.staged, true, false));
    CleanDrop(p.rest, s.n);
    CleanEnds(s.gate, r);
    if r != "" {
      CleanCut(r, s.gate);
    }
  }

  /** In valid characters nothing is reported before a token. */
  lemma CleanEnded(p: Point, eat: bool)
    ensures Clean(p.rest) ==> !Skip(p.rest, p.staged, eat).gate.flagged
  {
    if Clean(p.rest) {
      CleanRun(Blank, p.rest, Gate(p.staged, true, false));
    }
  }

  lemma CleanNext(p: Point, eat: bool)
    ensures Clean(p.rest) && TurnAt(p, eat).Makes? ==> Clean(TurnAt(p, eat).next.rest)
  {
    if Clean(p.rest) && TurnAt(p, eat).Makes? {
      CleanTurn(p, eat);
      var r := p.rest[Skipped(p.rest, eat)..];
      FirstConsumes(r);
      CleanDrop(r, First(r).1);
    }
  }

  /** In valid characters with a case, calls cut off the tokens of the input, until there are no more. */
  lemma {:induction false} CleanCuts(p: Point, eat: bool, n: nat)
    requires Clean(p.rest) && Lexable(p.rest)
    ensures var ts := TokensOf(p.rest, p.at, eat);
      Cuts(p, eat, n) == if n <= |ts| then ts[..n] else ts
    decreases n
  {
    hide TurnAt, TokensOf, Clean, Lexable, First, Cuts;
    var ts := TokensOf(p.rest, p.at, eat);
    if n == 0 {
      CutsOver(p, eat, 0);
    } else {
      CleanTurn(p, eat);
      TokensStep(p.rest, p.at, eat);
      if TurnAt(p, eat).Makes? {
        var next := TurnAt(p, eat).next;
        CleanCuts(next, eat, n - 1);
        CutsOn(p, eat, n);
        assert ts == [ts[0]] + TokensOf(next.rest, next.at, eat);
      } else {
        CutsOver(p, eat, n);
      }
    }
  }

  /** Then what was made is a front of the tokens of the input, and all that can be made is all of them. */
  lemma MadeAreTokens(p: Point, eat: bool, ts: seq<Token>)
    requires Clean(p.rest) && Lexable(p.rest) && ts == Cuts(p, eat, |ts|)
    ensures ts <= TokensOf(p.rest, p.at, eat)
    ensures AreAll(p, eat, ts) ==> ts == TokensOf(p.rest, p.at, eat)
  {
    var all := TokensOf(p.rest, p.at, eat);
    CleanCuts(p, eat, |ts|);
    CleanCuts(p, eat, |ts| + |all|);
  }

  /** A character without a case is never passed: every call makes a token. */
  lemma {:induction false} NeverEnds(p: Point, eat: bool, n: nat)
    requires Clean(p.rest) && !Lexable(p.rest)
    ensures |Cuts(p, eat, n)| == n
    decreases n
  {
    if n > 0 {
      NeverPassed(p, eat);
      NeverEnds(TurnAt(p, eat).next, eat, n - 1);
    }
  }

  lemma NeverPassed(p: Point, eat: bool)
    requires Clean(p.rest) && !Lexable(p.rest)
    ensures TurnAt(p, eat).Makes? && Clean(TurnAt(p, eat).next.rest) && !Lexable(TurnAt(p, eat).next.rest)
  {
    var b := Skipped(p.rest, eat);
    var r := p.rest[b..];
    CleanTurn(p, eat);
    SpanIs(Blank, p.rest);
    BlanksHaveCases(p.rest[..b]);
    NotLexableBehind(p.rest, b);
    if r != "" {
      FirstConsumes(r);
      var n := First(r).1;
      TakeWithin(r, n);
      CleanDrop(r, n);
      if n > 0 {
        ShapedIsLexable(First(r).0, Take(r, n));
        NotLexableBehind(r, n);
      }
    }
  }

  lemma BlanksHaveCases(s: string)
    ensures AllIn(Blank, s) ==> Lexable(s)
  {
  }

  lemma NotLexableBehind(s: string, n: nat)
    requires n <= |s| && Lexable(s[..n])
    ensures Lexable(s) <==> Lexable(s[n..])
  {
    assert forall i :: 0 <= i < n ==> s[..n][i] == s[i];
    assert forall i :: n <= i < |s| ==> s[n..][i - n] == s[i];
  }

  /** With all the memory there is, calls come to an end exactly if every character has a case. */
  lemma EndsIffLexable(p: Point, eat: bool)
    requires Clean(p.rest)
    ensures (exists n: nat :: |Cuts(p, eat, n)| < n) <==> Lexable(p.rest)
  {
    if Lexable(p.rest) {
      var n := |TokensOf(p.rest, p.at, eat)| + 1;
      CleanCuts(p, eat, n);
      assert |Cuts(p, eat, n)| < n;
    } else {
      forall n: nat ensures |Cuts(p, eat, n)| == n {
        NeverEnds(p, eat, n);
      }
    }
  }
}

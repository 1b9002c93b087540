/** What stands between reading and emitting: which characters were read already, and whether an invalid byte was
    among those that were read. */
module Gates {
  import opened Characters

  /** `staged` characters of the rest of the input were read before; errors stop emitting; `flagged` says whether an
      invalid byte was reported. */
  datatype Gate = Gate(staged: nat, emits: bool, flagged: bool)

  predicate IsBad(c: char) {
    c != '\0' && IsInvalidChar(c)
  }

  /** In bytes: neither zero, nor ETX, nor text. */
  lemma BadIs(c: char)
    requires c as int < 256
    ensures IsBad(c) <==> !(c as int == 0 || c as int == 3 || 9 <= c as int <= 13 || 32 <= c as int <= 126)
  {
  }

  /** An invalid byte is read for the first time when `n` characters are looked at. */
  predicate Fresh(rest: string, staged: nat, n: nat) {
    exists i :: staged <= i < n && IsBad(At(rest, i))
  }

  /** After looking at `n` characters. */
  function Look(g: Gate, rest: string, n: nat): Gate {
    var f := Fresh(rest, g.staged, n);
    Gate(if g.staged < n then n else g.staged, g.emits && !f, g.flagged || f)
  }

  /** After consuming `n` characters that were looked at. */
  function Consume(g: Gate, n: nat): Gate {
    g.(staged := if g.staged < n then 0 else g.staged - n)
  }

  /** What comes out of what is emitted. */
  function Shown(g: Gate, text: string): string {
    if g.emits then text else ""
  }

  /** The input is taken to end here: nothing is left, a zero or 255 byte, or an ETX byte that was not read before. */
  predicate EndsAt(g: Gate, rest: string) {
    rest == "" || rest[0] == '\0' || rest[0] == EOF || (g.staged == 0 && rest[0] == ETX)
  }

  lemma LookAtNothing(g: Gate, rest: string)
    ensures Look(g, rest, 0) == g
  {
  }

  lemma LookOn(g: Gate, rest: string, m: nat, n: nat)
    requires m <= n
    ensures Look(Look(g, rest, m), rest, n) == Look(g, rest, n)
  {
  }

  /** Looking one character further, when all those before it were looked at. */
  lemma LookOneMore(g: Gate, rest: string, n: nat)
    requires n <= g.staged
    ensures Look(g, rest, n + 1) == if n == g.staged && IsBad(At(rest, n)) then Gate(n + 1, false, true)
      else g.(staged := if g.staged == n then n + 1 else g.staged)
  {
    if n == g.staged {
      assert Fresh(rest, n, n + 1) <==> IsBad(At(rest, n));
    }
  }

  lemma CleanLook(g: Gate, rest: string, n: nat)
    requires Clean(rest)
    ensures Look(g, rest, n).emits == g.emits && Look(g, rest, n).flagged == g.flagged
  {
    forall i: nat ensures !IsBad(At(rest, i)) {
      if i < |rest| {
        assert IsText(rest[i]);
      }
    }
  }

  lemma CleanEnds(g: Gate, rest: string)
    requires Clean(rest)
    ensures EndsAt(g, rest) <==> rest == ""
  {
    assert rest != "" ==> IsText(rest[0]);
  }

  // ---------------------------------------------------------------- runs of one class

  /** How many characters of a class are consumed, what of them is emitted, and the gate afterwards. */
  datatype Run = Run(n: nat, text: string, gate: Gate)

  function RunOf(k: Class, rest: string, g: Gate): (r: Run)
    ensures r.n <= |rest|
    decreases |rest|
  {
    if EndsAt(g, rest) then Run(0, "", g)
    else
      var g1 := Look(g, rest, 1);
      if !In(k, rest[0]) then Run(0, "", g1)
      else
        var r := RunOf(k, rest[1..], Consume(g1, 1));
        Run(r.n + 1, Shown(g1, [rest[0]]) + r.text, r.gate)
  }

  lemma {:induction false} RunStops(k: Class, rest: string, g: Gate)
    ensures var n := RunOf(k, rest, g).n;
      && AllIn(k, rest[..n])
      && (n < |rest| && In(k, rest[n]) ==> rest[n] == '\0' || rest[n] == EOF || rest[n] == ETX)
    decreases |rest|
  {
    if !EndsAt(g, rest) && In(k, rest[0]) {
      var g' := Consume(Look(g, rest, 1), 1);
      RunStops(k, rest[1..], g');
      var m := RunOf(k, rest[1..], g').n;
      assert rest[..m + 1] == [rest[0]] + rest[1..][..m];
      assert m + 1 < |rest| ==> rest[m + 1] == rest[1..][m];
    }
  }

  lemma {:induction false} RunEmits(k: Class, rest: string, g: Gate)
    ensures var r := RunOf(k, rest, g);
      && |r.text| <= r.n && r.text == rest[..|r.text|]
      && (r.gate.emits ==> g.emits && |r.text| == r.n) && (!g.emits ==> r.text == "")
      && (g.emits && !r.gate.flagged ==> r.gate.emits) && (g.flagged ==> r.gate.flagged)
    decreases |rest|
  {
    if !EndsAt(g, rest) && In(k, rest[0]) {
      var g1 := Look(g, rest, 1);
      RunEmits(k, rest[1..], Consume(g1, 1));
      var t := RunOf(k, rest[1..], Consume(g1, 1)).text;
      if g1.emits {
        assert rest[..|t| + 1] == [rest[0]] + rest[1..][..|t|];
      }
    }
  }

  /** The first invalid byte from place `from` on, in front of place `n`; or `n`. */
  function FirstBad(rest: string, from: nat, n: nat): (i: nat)
    requires n <= |rest|
    ensures i <= n && forall j :: from <= j < i ==> !IsBad(rest[j])
    ensures i < n ==> from <= i && IsBad(rest[i])
    decreases n - from
  {
    if from >= n then n else if IsBad(rest[from]) then from else FirstBad(rest, from + 1, n)
  }

  /** A run over one character more. */
  lemma RunStep(k: Class, rest: string, g: Gate)
    requires !EndsAt(g, rest) && In(k, rest[0])
    ensures var bad := g.staged == 0 && IsBad(rest[0]);
      var g1 := Gate(if g.staged == 0 then 1 else g.staged, g.emits && !bad, g.flagged || bad);
      var r := RunOf(k, rest[1..], g1.(staged := g1.staged - 1));
      RunOf(k, rest, g) == Run(r.n + 1, (if g1.emits then [rest[0]] else "") + r.text, r.gate)
  {
    LookOneMore(g, rest, 0);
    hide In, IsBad;
  }

  /** What is emitted of the front of `n` characters. */
  function EmittedOf(rest: string, from: nat, n: nat, emits: bool): string
    requires n <= |rest|
  {
    if emits then rest[..FirstBad(rest, from, n)] else ""
  }

  lemma EmitStep(rest: string, from: nat, n: nat, emits: bool)
    requires rest != "" && n + 1 <= |rest|
    ensures var bad, from' := from == 0 && IsBad(rest[0]), if from == 0 then 0 else from - 1;
      EmittedOf(rest, from, n + 1, emits) ==
        (if emits && !bad then [rest[0]] else "") + EmittedOf(rest[1..], from', n, emits && !bad)
  {
    BadShifts(rest, from, n);
    hide FirstBad, IsBad;
    var m := FirstBad(rest[1..], if from == 0 then 0 else from - 1, n);
    assert rest[..m + 1] == [rest[0]] + rest[1..][..m];
  }

  /** A run emits everything in front of the first invalid byte that was not read before, and nothing behind it. */
  lemma {:induction false} RunEmitsUpTo(k: Class, rest: string, g: Gate)
    ensures var r := RunOf(k, rest, g);
      r.text == EmittedOf(rest, g.staged, r.n, g.emits)
    decreases |rest|
  {
    hide EmittedOf, IsBad, In;
    if !EndsAt(g, rest) && In(k, rest[0]) {
      RunStep(k, rest, g);
      var bad := g.staged == 0 && IsBad(rest[0]);
      var g' := Gate(if g.staged == 0 then 0 else g.staged - 1, g.emits && !bad, g.flagged || bad);
      RunEmitsUpTo(k, rest[1..], g');
      EmitStep(rest, g.staged, RunOf(k, rest[1..], g').n, g.emits);
    } else {
      NothingEmitted(rest, g.staged, g.emits);
    }
  }

  lemma NothingEmitted(rest: string, from: nat, emits: bool)
    ensures EmittedOf(rest, from, 0, emits) == ""
  {
  }

  lemma FirstBadOfNone(rest: string, from: nat)
    ensures FirstBad(rest, from, 0) == 0 && rest[..0] == ""
  {
  }

  lemma BadShifts(rest: string, from: nat, n: nat)
    requires rest != "" && n + 1 <= |rest|
    ensures FirstBad(rest, from, n + 1) ==
      if from == 0 && IsBad(rest[0]) then 0 else FirstBad(rest[1..], if from == 0 then 0 else from - 1, n) + 1
  {
    var i, j := FirstBad(rest, from, n + 1), FirstBad(rest[1..], if from == 0 then 0 else from - 1, n);
    assert forall x :: 1 <= x < |rest| ==> rest[x] == rest[1..][x - 1];
    if i >= 1 {
      assert i < n + 1 ==> rest[1..][i - 1] == rest[i];
    }
    assert j < n ==> rest[j + 1] == rest[1..][j];
  }

  /** Place `n` stops a run that has gone over those in front of it: some of these was invalid, or that one is, when
      they are read for the first time. */
  predicate Finds(rest: string, from: nat, n: nat)
    requires n <= |rest|
  {
    FirstBad(rest, from, n) < n || (from <= n < |rest| && IsBad(rest[n]) && rest[n] != EOF)
  }

  lemma FindStep(rest: string, from: nat, n: nat)
    requires rest != "" && n + 1 <= |rest|
    ensures Finds(rest, from, n + 1) <==>
      ((from == 0 && IsBad(rest[0])) || Finds(rest[1..], if from == 0 then 0 else from - 1, n))
  {
    BadShifts(rest, from, n);
    hide FirstBad, IsBad;
    assert n + 1 < |rest| ==> rest[n + 1] == rest[1..][n];
  }

  /** It reports exactly the invalid bytes that were not read before: those it goes over, and the one that stops it. */
  lemma {:induction false} RunReports(k: Class, rest: string, g: Gate)
    ensures var r := RunOf(k, rest, g);
      && r.gate.flagged == (g.flagged || Finds(rest, g.staged, r.n))
      && (g.emits && !g.flagged ==> r.gate.emits == !r.gate.flagged)
      && (g.flagged ==> r.gate.flagged)
    decreases |rest|
  {
    hide Finds, In;
    if !EndsAt(g, rest) && In(k, rest[0]) {
      RunStep(k, rest, g);
      var bad := g.staged == 0 && IsBad(rest[0]);
      var g' := Gate(if g.staged == 0 then 0 else g.staged - 1, g.emits && !bad, g.flagged || bad);
      RunReports(k, rest[1..], g');
      FindStep(rest, g.staged, RunOf(k, rest[1..], g').n);
      RunEmits(k, rest[1..], g');
    } else {
      StopReports(k, rest, g);
    }
  }

  lemma StopReports(k: Class, rest: string, g: Gate)
    requires EndsAt(g, rest) || !In(k, rest[0])
    ensures var r := RunOf(k, rest, g);
      && r.n == 0 && r.gate.flagged == (g.flagged || Finds(rest, g.staged, 0))
      && (g.emits && !g.flagged ==> r.gate.emits == !r.gate.flagged)
  {
    FirstBadOfNone(rest, g.staged);
    if rest != "" {
      LookOneMore(g, rest, 0);
    }
  }

  /** For every input: a run goes over characters of its class as far as there are any before an end of the input; it
      emits the front of them, up to the first invalid byte that it was the first to read, and reports that byte. */
  lemma RunIs(k: Class, rest: string, g: Gate)
    ensures var r := RunOf(k, rest, g);
      && AllIn(k, rest[..r.n])
      && (r.n < |rest| && In(k, rest[r.n]) ==> rest[r.n] == '\0' || rest[r.n] == EOF || rest[r.n] == ETX)
      && |r.text| <= r.n && r.text == rest[..|r.text|]
      && r.text == (if g.emits then rest[..FirstBad(rest, g.staged, r.n)] else "")
      && r.gate.flagged == (g.flagged || FirstBad(rest, g.staged, r.n) < r.n ||
        (g.staged <= r.n < |rest| && IsBad(rest[r.n]) && rest[r.n] != EOF))
      && (g.emits && !g.flagged ==> r.gate.emits == !r.gate.flagged)
  {
    RunStops(k, rest, g);
    RunEmits(k, rest, g);
    RunReports(k, rest, g);
    RunEmitsUpTo(k, rest, g);
  }

  lemma TakeFront(rest: string, n: nat)
    requires rest != ""
    ensures Take(rest, 0) == "" && Take(rest, n + 1) == [rest[0]] + Take(rest[1..], n)
  {
  }

  /** Whitespace is never invalid and never an end: it is consumed and emitted as far as it goes. */
  lemma {:induction false} BlanksAreAll(rest: string, g: Gate)
    ensures var r := RunOf(Blank, rest, g);
      r.n == Span(Blank, rest) && r.text == Shown(g, Take(rest, r.n))
    decreases |rest|
  {
    if rest != "" && In(Blank, rest[0]) {
      BlanksAreAll(rest[1..], Consume(Look(g, rest, 1), 1));
      TakeFront(rest, Span(Blank, rest[1..]));
    } else {
      assert Take(rest, 0) == "";
    }
  }

  /** In clean input runs are spans. */
  lemma {:induction false} CleanRun(k: Class, rest: string, g: Gate)
    requires Clean(rest)
    ensures var r := RunOf(k, rest, g);
      && r.n == Span(k, rest) && r.text == Shown(g, Take(rest, r.n))
      && r.gate.emits == g.emits && r.gate.flagged == g.flagged
    decreases |rest|
  {
    CleanEnds(g, rest);
    CleanLook(g, rest, 1);
    if rest != "" && In(k, rest[0]) {
      assert Clean(rest[1..]);
      CleanRun(k, rest[1..], Consume(Look(g, rest, 1), 1));
      TakeFront(rest, Span(k, rest[1..]));
    } else {
      assert Take(rest, 0) == "";
    }
  }
}

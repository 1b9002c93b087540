/** What the recognisers of string literals and comments make of their input, and the round trips. */
module Scanning {
  import opened Options
  import opened Characters
  import opened Gates

  /** Why a loop stopped: at the closing delimiter, at a line break, or at the end of the input. */
  datatype Stop = Closed | Broken | Exhausted

  /** The emitted text, and the characters consumed. */
  datatype Scan = Scan(text: string, used: string, stop: Stop)

  function Prefixed(text: string, used: string, s: Scan): Scan {
    s.(text := text + s.text, used := used + s.used)
  }

  // ---------------------------------------------------------------- string literals

  predicate IsDelimiter(c: char) {
    c == '\'' || c == '"'
  }

  /** Characters that a backslash may stand in front of. */
  predicate IsEscapable(c: char, d: char) {
    c == d || c == '\\' || c == '\n' || c == 12 as char || c == '\t'
  }

  /** What one round of a loop emits and consumes, how far the loop then looks ahead of what it consumed, and
      whether it stops. */
  datatype Round = Round(text: string, used: string, skew: nat, stop: Option<Stop>)

  /** The loop of `lex_xml_string_literal`.  An unknown escape drops the backslash alone, and from then on
      the loop looks one more character ahead of what it consumes. */
  function StringRound(rest: string, skew: nat, d: char): Round {
    var c0, c1 := At(rest, skew), At(rest, skew + 1);
    if rest == "" then Round("", "", skew, Some(Exhausted))
    else if c0 == '\\' then
      if IsEscapable(c1, d) then Round([c1], Take(rest, 2), skew, None)
      else Round("", Take(rest, 1), skew + 1, None)
    else if c0 == d then Round("", Take(rest, 1), skew, Some(Closed))
    else if c0 == '\n' then Round("", Take(rest, 1), skew, Some(Broken))
    else Round(Take(rest, 1), Take(rest, 1), skew, None)
  }

  function ScanString(rest: string, skew: nat, d: char): Scan
    decreases |rest|
  {
    var r := StringRound(rest, skew, d);
    match r.stop
    case Some(stop) => Scan(r.text, r.used, stop)
    case None => Prefixed(r.text, r.used, ScanString(Drop(rest, |r.used|), r.skew, d))
  }

  /** How many characters a round looks at. */
  function StringLooks(rest: string, skew: nat): nat {
    if At(rest, skew) == '\\' then 2 else 1
  }

  /** A printer for string literals. */
  function Printed(c: char, d: char): string {
    if c == d || c == '\\' || c == '\n' then ['\\', c] else [c]
  }

  function Escape(s: string, d: char): string {
    if s == "" then "" else Printed(s[0], d) + Escape(s[1..], d)
  }

  /** No backslash that the loop meets stands in front of anything but a character that can be escaped. */
  predicate KnownEscapes(rest: string, d: char)
    decreases |rest|
  {
    if rest == "" || (rest[0] != '\\' && (rest[0] == d || rest[0] == '\n')) then true
    else if rest[0] == '\\' then IsEscapable(At(rest, 1), d) && KnownEscapes(Drop(rest, 2), d)
    else KnownEscapes(rest[1..], d)
  }

  // ---------------------------------------------------------------- all inputs

  /** A round on any input: it may find the end early, and emits only what the gate lets through. */
  function Gated(r: Round, looks: nat, rest: string, skew: nat, g: Gate): (Round, Gate) {
    if EndsAt(g, rest) then (Round("", "", skew, Some(Exhausted)), g)
    else
      var g1 := Look(g, rest, looks);
      (r.(text := Shown(g1, r.text)), Consume(g1, |r.used|))
  }

  /** One turn of the loop of `lex_xml_string_literal`. */
  function StringStep(rest: string, skew: nat, d: char, g: Gate): (r: (Round, Gate))
    ensures r.0.stop == None ==> r.0.used != "" && rest != ""
  {
    Gated(StringRound(rest, skew, d), skew + StringLooks(rest, skew), rest, skew, g)
  }

  /** What the loop of `lex_xml_string_literal` makes of any input. */
  function ReadString(rest: string, skew: nat, d: char, g: Gate): (Scan, Gate)
    decreases |rest|
  {
    var (r, g') := StringStep(rest, skew, d, g);
    match r.stop
    case Some(stop) => (Scan(r.text, r.used, stop), g')
    case None =>
      var (s, g'') := ReadString(Drop(rest, |r.used|), r.skew, d, g');
      (Prefixed(r.text, r.used, s), g'')
  }

  /** The staging area has room for the characters that the loop looks ahead. */
  predicate ReadFits(rest: string, skew: nat, d: char, g: Gate, room: nat)
    decreases |rest|
  {
    !EndsAt(g, rest) ==>
      var (r, g') := StringStep(rest, skew, d, g);
      && skew + StringLooks(rest, skew) <= room
      && (r.stop == None ==> ReadFits(Drop(rest, |r.used|), r.skew, d, g', room))
  }

  lemma CleanGated(r: Round, looks: nat, rest: string, skew: nat, g: Gate)
    requires Clean(rest) && g.emits && (rest == "" ==> r == Round("", "", skew, Some(Exhausted)))
    ensures var (q, g') := Gated(r, looks, rest, skew, g); q == r && g'.emits && g'.flagged == g.flagged
  {
    CleanEnds(g, rest);
    CleanLook(g, rest, looks);
  }

  lemma CleanDrops(rest: string, n: nat)
    requires Clean(rest)
    ensures Clean(Drop(rest, n))
  {
  }

  /** Clean input is read as it is scanned, and nothing is reported. */
  lemma {:induction false} CleanString(rest: string, skew: nat, d: char, g: Gate)
    requires Clean(rest) && g.emits
    ensures var (s, g') := ReadString(rest, skew, d, g);
      s == ScanString(rest, skew, d) && g'.emits && g'.flagged == g.flagged
    decreases |rest|
  {
    var r := StringRound(rest, skew, d);
    CleanGated(r, skew + StringLooks(rest, skew), rest, skew, g);
    if r.stop == None {
      CleanDrops(rest, |r.used|);
      CleanString(Drop(rest, |r.used|), r.skew, d, StringStep(rest, skew, d, g).1);
    }
  }

  /** Once emitting is forbidden nothing more comes out. */
  lemma {:induction false} SilentString(rest: string, skew: nat, d: char, g: Gate)
    requires !g.emits
    ensures ReadString(rest, skew, d, g).0.text == ""
    decreases |rest|
  {
    var (r, g') := StringStep(rest, skew, d, g);
    if r.stop == None {
      SilentString(Drop(rest, |r.used|), r.skew, d, g');
    }
  }

  /** Without unknown escapes the loop never looks further than two characters. */
  lemma {:induction false} KnownEscapesFit(rest: string, d: char, g: Gate, room: nat)
    requires KnownEscapes(rest, d) && room >= 2
    ensures ReadFits(rest, 0, d, g, room)
    decreases |rest|
  {
    if !EndsAt(g, rest) {
      var g' := StringStep(rest, 0, d, g).1;
      if rest[0] == '\\' {
        KnownEscapesFit(Drop(rest, 2), d, g', room);
      } else if rest[0] != d && rest[0] != '\n' {
        KnownEscapesFit(rest[1..], d, g', room);
      }
    }
  }

  // ---------------------------------------------------------------- reading what was printed

  /** Errors forbid nothing, and what was read before is neither invalid nor taken for the end. */
  ghost predicate Trusted(g: Gate, rest: string) {
    g.emits && forall i :: 0 <= i < g.staged ==> !IsBad(At(rest, i)) && At(rest, i) != ETX
  }

  /** A character that a round can start with. */
  predicate Opens(c: char) {
    !IsInvalidChar(c) && c != ETX
  }

  lemma TrustedOn(g: Gate, rest: string, n: nat)
    requires Trusted(g, rest)
    ensures var g' := Consume(Look(g, rest, n), n);
      if forall i :: 0 <= i < n ==> !IsBad(At(rest, i)) then
        Look(g, rest, n).emits && Trusted(g', Drop(rest, n)) && g'.flagged == g.flagged
      else !Look(g, rest, n).emits && !g'.emits
  {
    assert Fresh(rest, g.staged, n) <==> exists i :: 0 <= i < n && IsBad(At(rest, i));
    forall i: nat ensures At(Drop(rest, n), i) == At(rest, n + i) {
    }
  }

  /** A trusted reading goes on at a character exactly if it can start a round. */
  lemma OpensIff(g: Gate, rest: string)
    requires Trusted(g, rest) && rest != ""
    ensures Opens(rest[0]) <==> !EndsAt(g, rest) && !IsBad(rest[0])
  {
    assert g.staged > 0 ==> At(rest, 0) != ETX;
  }

  lemma PrefixedIff(a: string, b: string, x: string, y: string, s: Scan, stop: Stop)
    ensures Prefixed(a, x, s) == Scan(a + b, x + y, stop) <==> s == Scan(b, y, stop)
  {
    var p := Prefixed(a, x, s);
    if p == Scan(a + b, x + y, stop) {
      assert p.text[|a|..] == s.text && (a + b)[|a|..] == b;
      assert p.used[|x|..] == s.used && (x + y)[|x|..] == y;
    }
  }

  /** The loop over the printed form of one character. */
  lemma PrintedFront(c: char, rest: string, d: char, g: Gate)
    requires IsDelimiter(d) && Trusted(g, Printed(c, d) + rest)
    ensures var a, all := Printed(c, d), Printed(c, d) + rest;
      var g' := Consume(Look(g, all, |a|), |a|);
      var (s, g'') := ReadString(rest, 0, d, g');
      if Opens(c) then
        Trusted(g', rest) && g'.flagged == g.flagged && ReadString(all, 0, d, g) == (Prefixed([c], a, s), g'')
      else
        ReadString(all, 0, d, g).0.text == "" && (ReadString(all, 0, d, g).0.used != "" ==> a == [c])
  {
    var a, all := Printed(c, d), Printed(c, d) + rest;
    OpensIff(g, all);
    TrustedOn(g, all, |a|);
    assert Drop(all, |a|) == rest && Take(all, |a|) == a && all[0] == a[0];
    assert !EndsAt(g, all) ==> StringStep(all, 0, d, g).0 == Round(Shown(Look(g, all, |a|), [c]), a, 0, None);
    if !Opens(c) && !EndsAt(g, all) {
      SilentString(rest, 0, d, Consume(Look(g, all, |a|), |a|));
    }
  }

  /** For every string: what was printed is read back, up to just behind the closing delimiter, exactly if all its
      characters can start a round.  No unknown escape is met. */
  lemma {:induction false} StringRoundTrip(s: string, d: char, tail: string, g: Gate)
    requires IsDelimiter(d) && Trusted(g, Escape(s, d) + ([d] + tail))
    ensures var (scan, g') := ReadString(Escape(s, d) + ([d] + tail), 0, d, g);
      && (scan == Scan(s, Escape(s, d) + [d], Closed) <==> forall c :: c in s ==> Opens(c))
      && (scan == Scan(s, Escape(s, d) + [d], Closed) ==> g'.emits && g'.flagged == g.flagged)
    decreases |s|
  {
    hide Printed, Trusted, Opens;
    var all := Escape(s, d) + ([d] + tail);
    if s == "" {
      assert all == [d] + tail && Escape(s, d) + [d] == [d];
      OpensIff(g, all);
      TrustedOn(g, all, 1);
      assert Take(all, 1) == [d];
    } else {
      var a, rest := Printed(s[0], d), Escape(s[1..], d) + ([d] + tail);
      EscapeFront(s, d, [d] + tail);
      EscapeFront(s, d, [d]);
      PrintedFront(s[0], rest, d, g);
      assert (forall c :: c in s ==> Opens(c)) <==> Opens(s[0]) && forall c :: c in s[1..] ==> Opens(c);
      if Opens(s[0]) {
        var g' := Consume(Look(g, all, |a|), |a|);
        StringRoundTrip(s[1..], d, tail, g');
        hide Escape, ReadString, Prefixed;
        PrefixedIff([s[0]], s[1..], a, Escape(s[1..], d) + [d], ReadString(rest, 0, d, g').0, Closed);
      }
    }
  }

  lemma EscapeFront(s: string, d: char, t: string)
    requires s != ""
    ensures s == [s[0]] + s[1..]
    ensures Escape(s, d) + t == Printed(s[0], d) + (Escape(s[1..], d) + t)
  {
  }

  lemma {:induction false} EscapesAreKnown(s: string, d: char, tail: string)
    requires IsDelimiter(d)
    ensures KnownEscapes(Escape(s, d) + ([d] + tail), d)
    decreases |s|
  {
    var all := Escape(s, d) + ([d] + tail);
    if s != "" {
      EscapeFront(s, d, [d] + tail);
      EscapesAreKnown(s[1..], d, tail);
      assert Drop(all, |Printed(s[0], d)|) == Escape(s[1..], d) + ([d] + tail);
    }
  }

  // ---------------------------------------------------------------- in characters

  /** A character that stands for itself, the delimiter that closes, and the line break that ends the literal. */
  lemma PlainIs(c: char, d: char, rest: string, g: Gate)
    requires (d == '\'' || d == '"') && c != '\\' && IsText(c) && Trusted(g, [c] + rest)
    ensures var (s, _) := ReadString([c] + rest, 0, d, g);
      if c == d then s == Scan("", [c], Closed)
      else if c as int == 10 then s == Scan("", [c], Broken)
      else s == Prefixed([c], [c], ReadString(rest, 0, d, Consume(Look(g, [c] + rest, 1), 1)).0)
  {
    var all := [c] + rest;
    OpensIff(g, all);
    TrustedOn(g, all, 1);
    assert Drop(all, 1) == rest && Take(all, 1) == [c];
  }

  /** What a backslash may stand in front of: the delimiter, the backslash, the line break, the form feed and the tab.
      These are read as what they are; every other character is lost, and the closing delimiter stays in the input. */
  lemma EscapeIs(c: char, d: char, tail: string, g: Gate)
    requires (d == '\'' || d == '"') && IsText(c) && Trusted(g, ['\\', c, d] + tail)
    ensures ReadString(['\\', c, d] + tail, 0, d, g).0 ==
      if c == d || c as int in {92, 10, 12, 9} then Scan([c], ['\\', c, d], Closed) else Scan("", ['\\', c], Closed)
  {
    var all := ['\\', c, d] + tail;
    OpensIff(g, all);
    TrustedOn(g, all, 2);
    if c == d || c as int in {92, 10, 12, 9} {
      var rest, g' := [d] + tail, Consume(Look(g, all, 2), 2);
      assert Drop(all, 2) == rest && Take(all, 2) == ['\\', c];
      PlainIs(d, d, tail, g');
      assert StringStep(all, 0, d, g) == (Round([c], ['\\', c], 0, None), g');
      assert ['\\', c] + [d] == ['\\', c, d];
    } else {
      var rest, g' := [c, d] + tail, Consume(Look(g, all, 2), 1);
      assert Drop(all, 1) == rest && Take(all, 1) == ['\\'] && Take(rest, 1) == [c];
      assert StringStep(all, 0, d, g) == (Round("", ['\\'], 1, None), g');
      assert StringRound(rest, 1, d) == Round("", [c], 1, Some(Closed));
      assert ReadString(rest, 1, d, g').0 == Scan("", [c], Closed);
    }
  }

  /** Either way two characters of look-ahead do. */
  lemma EscapeFits(c: char, d: char, tail: string, g: Gate, room: nat)
    requires (d == '\'' || d == '"') && IsText(c) && room >= 2
    ensures ReadFits(['\\', c, d] + tail, 0, d, g, room)
  {
    var all := ['\\', c, d] + tail;
    assert Drop(all, 2) == [d] + tail && Drop(all, 1) == [c, d] + tail;
  }

  // ---------------------------------------------------------------- unknown escapes

  /** The loop as meant: after an unknown escape the look-ahead starts again at the first character that is left. */
  function Meant(rest: string, d: char): Scan
    decreases |rest|
  {
    var r := StringRound(rest, 0, d);
    match r.stop
    case Some(stop) => Scan(r.text, r.used, stop)
    case None => Prefixed(r.text, r.used, Meant(Drop(rest, |r.used|), d))
  }

  /** How many unknown escapes the loop as meant meets. */
  function Unknown(rest: string, d: char): nat
    decreases |rest|
  {
    var r := StringRound(rest, 0, d);
    r.skew + if r.stop == None then Unknown(Drop(rest, |r.used|), d) else 0
  }

  lemma {:induction false} KnownIsNoUnknown(rest: string, d: char)
    ensures KnownEscapes(rest, d) <==> Unknown(rest, d) == 0
    decreases |rest|
  {
    var r := StringRound(rest, 0, d);
    if r.stop == None {
      KnownIsNoUnknown(Drop(rest, |r.used|), d);
    }
  }

  lemma {:induction false} KnownIsMeant(rest: string, d: char)
    requires KnownEscapes(rest, d)
    ensures ScanString(rest, 0, d) == Meant(rest, d)
    decreases |rest|
  {
    var r := StringRound(rest, 0, d);
    if r.stop == None {
      KnownIsMeant(Drop(rest, |r.used|), d);
    }
  }

  /** The character behind an unknown escape is a plain one: the loop as meant passes it at once. */
  lemma UnknownIsPassed(m: string, d: char)
    requires IsDelimiter(d) && m != "" && m[0] == '\\' && !IsEscapable(At(m, 1), d)
    ensures Meant(m, d).stop == Meant(Drop(m, 2), d).stop && Unknown(m, d) == 1 + Unknown(Drop(m, 2), d)
    ensures |m| >= 2 ==> |Meant(m, d).used| == 2 + |Meant(Drop(m, 2), d).used|
    ensures |m| == 1 ==> Meant(m, d).stop == Exhausted
  {
    var m1 := Drop(m, 1);
    assert StringRound(m, 0, d) == Round("", Take(m, 1), 1, None);
    assert Meant(m, d) == Prefixed("", Take(m, 1), Meant(m1, d));
    if m1 != "" {
      assert At(m1, 0) == At(m, 1) && Drop(m1, 1) == Drop(m, 2);
      assert StringRound(m1, 0, d) == Round(Take(m1, 1), Take(m1, 1), 0, None);
      assert Meant(m1, d) == Prefixed(Take(m1, 1), Take(m1, 1), Meant(Drop(m, 2), d));
    }
  }

  /** A round with look-ahead does what a round without it would do behind the characters looked over. */
  lemma SameRound(rest: string, k: nat, d: char)
    requires Drop(rest, k) != ""
    ensures var r, q := StringRound(rest, k, d), StringRound(Drop(rest, k), 0, d);
      && r.stop == q.stop && |r.used| == |q.used| && r.skew == k + q.skew
      && (r.skew == k || (r.skew == k + 1 && r.stop == None && |r.used| == 1
           && Drop(rest, k)[0] == '\\' && !IsEscapable(At(Drop(rest, k), 1), d)))
  {
    assert At(Drop(rest, k), 0) == At(rest, k) && At(Drop(rest, k), 1) == At(rest, k + 1);
  }

  lemma DropTwice(s: string, m: nat, n: nat)
    ensures Drop(Drop(s, m), n) == Drop(s, m + n)
  {
  }

  /** With `k` characters of look-ahead already lost, the loop stops for the same reason as the loop as meant would
      behind them, but has consumed fewer characters: one for each unknown escape on the way. */
  lemma {:induction false} FallsBehind(rest: string, k: nat, d: char)
    requires IsDelimiter(d) && Meant(Drop(rest, k), d).stop != Exhausted
    ensures var s, m := ScanString(rest, k, d), Meant(Drop(rest, k), d);
      s.stop == m.stop && |s.used| + Unknown(Drop(rest, k), d) == |m.used|
    decreases |rest|
  {
    var m := Drop(rest, k);
    assert m != "";
    SameRound(rest, k, d);
    var r := StringRound(rest, k, d);
    var n := |r.used|;
    hide StringRound;
    if r.skew != k {
      UnknownIsPassed(m, d);
      DropTwice(rest, 1, k + 1);
      DropTwice(rest, k, 2);
      FallsBehind(Drop(rest, 1), k + 1, d);
    } else if r.stop == None {
      DropTwice(rest, n, k);
      DropTwice(rest, k, n);
      FallsBehind(Drop(rest, n), k, d);
    }
  }

  lemma RunsOutStep(rest: string, k: nat, d: char)
    requires IsDelimiter(d) && rest != "" && Meant(Drop(rest, k), d).stop == Exhausted
    ensures var r := StringRound(rest, k, d);
      r.stop == None && Meant(Drop(Drop(rest, |r.used|), r.skew), d).stop == Exhausted
  {
    var m, r := Drop(rest, k), StringRound(rest, k, d);
    var n := |r.used|;
    DropTwice(rest, n, k);
    DropTwice(rest, k, n);
    if m != "" {
      SameRound(rest, k, d);
      if r.skew != k {
        DropTwice(rest, 1, k + 1);
        DropTwice(rest, k, 2);
        UnknownIsPassed(m, d);
      }
    }
  }

  /** Where the input ends before the literal does, the loop consumes all of it, whatever it has lost. */
  lemma {:induction false} RunsOut(rest: string, k: nat, d: char)
    requires IsDelimiter(d) && Meant(Drop(rest, k), d).stop == Exhausted
    ensures ScanString(rest, k, d).stop == Exhausted && ScanString(rest, k, d).used == rest
    decreases |rest|
  {
    if rest != "" {
      var r := StringRound(rest, k, d);
      RunsOutStep(rest, k, d);
      UsedFits(rest, k, d);
      hide StringRound, Meant;
      RunsOut(Drop(rest, |r.used|), r.skew, d);
      assert rest == rest[..|r.used|] + rest[|r.used|..];
    }
  }

  /** No round consumes more than there is. */
  lemma UsedFits(rest: string, k: nat, d: char)
    requires IsDelimiter(d)
    ensures var n := |StringRound(rest, k, d).used|; n <= |rest| && StringRound(rest, k, d).used == rest[..n]
    ensures rest != "" ==> StringRound(rest, k, d).used != ""
  {
  }

  lemma {:induction false} MeantUses(rest: string, d: char)
    requires IsDelimiter(d) && Meant(rest, d).stop == Exhausted
    ensures Meant(rest, d).used == rest
    decreases |rest|
  {
    var r := StringRound(rest, 0, d);
    UsedFits(rest, 0, d);
    if rest != "" && r.stop == None {
      MeantUses(Drop(rest, |r.used|), d);
      assert rest == rest[..|r.used|] + rest[|r.used|..];
    }
  }

  /** Where the delimiter or a line break ends the literal, it is scanned as meant exactly if no unknown escape is met;
      the input falls behind by as many characters as there are. */
  lemma ScannedAsMeantIff(rest: string, d: char)
    requires IsDelimiter(d) && Meant(rest, d).stop != Exhausted
    ensures ScanString(rest, 0, d) == Meant(rest, d) <==> KnownEscapes(rest, d)
    ensures |ScanString(rest, 0, d).used| + Unknown(rest, d) == |Meant(rest, d).used|
  {
    hide ScanString, Meant, KnownEscapes;
    assert Drop(rest, 0) == rest;
    FallsBehind(rest, 0, d);
    KnownIsNoUnknown(rest, d);
    if KnownEscapes(rest, d) {
      KnownIsMeant(rest, d);
    }
  }

  // ---------------------------------------------------------------- what the ring can hold

  /** How many characters the loop looks ahead at most, with the input falling behind at every unknown escape. */
  function Reach(m: string, d: char): nat
    decreases |m|
  {
    var r := StringRound(m, 0, d);
    if m == "" then 1
    else if r.stop != None then StringLooks(m, 0)
    else if r.skew == 1 then Max(2, 1 + Reach(Drop(m, 2), d))
    else Max(StringLooks(m, 0), Reach(Drop(m, |r.used|), d))
  }

  function Max(a: nat, b: nat): nat {
    if a < b then b else a
  }

  /** Reaching over a round with `k` characters of look-ahead. */
  lemma ReachStep(rest: string, k: nat, d: char)
    requires IsDelimiter(d) && rest != ""
    ensures var r := StringRound(rest, k, d);
      var left, looks := Drop(rest, |r.used|), StringLooks(rest, k);
      && r.skew >= k
      && Reach(Drop(rest, k), d) ==
        if r.stop != None || left == "" then looks else Max(looks, r.skew - k + Reach(Drop(left, r.skew), d))
  {
    var m, r := Drop(rest, k), StringRound(rest, k, d);
    var n := |r.used|;
    UsedFits(rest, k, d);
    DropTwice(rest, n, r.skew);
    assert At(m, 0) == At(rest, k);
    if m != "" {
      SameRound(rest, k, d);
      DropTwice(rest, k, if r.skew == k then n else 2);
      hide StringRound;
    }
  }

  lemma ReadFitsStep(rest: string, k: nat, d: char, g: Gate, room: nat)
    requires Clean(rest) && rest != ""
    ensures var r, g' := StringRound(rest, k, d), StringStep(rest, k, d, g).1;
      ReadFits(rest, k, d, g, room) <==>
        (k + StringLooks(rest, k) <= room && (r.stop == None ==> ReadFits(Drop(rest, |r.used|), r.skew, d, g', room)))
  {
    CleanEnds(g, rest);
    hide StringRound, Look;
  }

  /** For every clean input: the ring can hold what the loop looks ahead exactly if it reaches that far. */
  lemma {:induction false} FitsIff(rest: string, k: nat, d: char, g: Gate, room: nat)
    requires IsDelimiter(d) && Clean(rest) && rest != ""
    ensures ReadFits(rest, k, d, g, room) <==> k + Reach(Drop(rest, k), d) <= room
    decreases |rest|
  {
    hide StringRound, StringStep, ReadFits, Reach, StringLooks, Clean;
    var r, g' := StringRound(rest, k, d), StringStep(rest, k, d, g).1;
    var left := Drop(rest, |r.used|);
    ReadFitsStep(rest, k, d, g, room);
    ReachStep(rest, k, d);
    CleanDrops(rest, |r.used|);
    NothingFits(r.skew, d, g', room);
    UsedFits(rest, k, d);
    assert r.stop == None ==> |left| < |rest|;
    if r.stop == None && left != "" {
      FitsIff(left, r.skew, d, g', room);
    }
  }

  lemma NothingFits(k: nat, d: char, g: Gate, room: nat)
    ensures ReadFits("", k, d, g, room)
  {
  }

  /** For every clean input: the ring can hold what the loop looks ahead, and the loop stops where it is meant to, and
      for the same reason, exactly if it meets no unknown escape, or if the literal is not ended at all and the ring
      is large enough. */
  lemma StopsAsMeantIff(rest: string, d: char, g: Gate, room: nat)
    requires IsDelimiter(d) && Clean(rest) && g.emits && room >= 2
    ensures var s, m := ReadString(rest, 0, d, g).0, Meant(rest, d);
      (ReadFits(rest, 0, d, g, room) && s.stop == m.stop && s.used == m.used) <==>
        (KnownEscapes(rest, d) || (m.stop == Exhausted && Reach(rest, d) <= room))
  {
    CleanString(rest, 0, d, g);
    assert Drop(rest, 0) == rest;
    if rest != "" {
      FitsIff(rest, 0, d, g, room);
    }
    hide ScanString, Meant, KnownEscapes, ReadFits, Reach;
    if KnownEscapes(rest, d) {
      KnownEscapesFit(rest, d, g, room);
    }
    if Meant(rest, d).stop == Exhausted {
      RunsOut(rest, 0, d);
      MeantUses(rest, d);
    } else {
      ScannedAsMeantIff(rest, d);
      KnownIsNoUnknown(rest, d);
    }
  }

  /** Where the delimiter or a line break ends the literal, the ring can hold what the loop looks ahead, and the literal
      is read as meant, exactly if no unknown escape is met.  Where the ring can hold it, the input falls behind by as
      many characters as there are unknown escapes. */
  lemma ReadAsMeantIff(rest: string, d: char, g: Gate, room: nat)
    requires IsDelimiter(d) && Clean(rest) && g.emits && room >= 2 && Meant(rest, d).stop != Exhausted
    ensures ReadFits(rest, 0, d, g, room) && ReadString(rest, 0, d, g).0 == Meant(rest, d) <==> KnownEscapes(rest, d)
    ensures ReadFits(rest, 0, d, g, room) ==>
      |ReadString(rest, 0, d, g).0.used| + Unknown(rest, d) == |Meant(rest, d).used|
  {
    CleanString(rest, 0, d, g);
    ScannedAsMeantIff(rest, d);
    hide ScanString, Meant, KnownEscapes, ReadFits;
    if KnownEscapes(rest, d) {
      KnownEscapesFit(rest, d, g, room);
    }
  }

  /** A letter escaped `n` times. */
  function Escapes(n: nat): string {
    if n == 0 then "" else "\\q" + Escapes(n - 1)
  }

  lemma {:induction false} EscapesReach(n: nat, d: char)
    requires IsDelimiter(d)
    ensures Clean(Escapes(n)) && Meant(Escapes(n), d).stop == Exhausted && Unknown(Escapes(n), d) == n
    ensures Reach(Escapes(n), d) == n + 1
  {
    if n > 0 {
      EscapesReach(n - 1, d);
      OneMoreEscape(Escapes(n - 1), d);
    }
  }

  lemma OneMoreEscape(m: string, d: char)
    requires IsDelimiter(d)
    ensures var all := "\\q" + m;
      && (Clean(m) ==> Clean(all)) && Meant(all, d).stop == Meant(m, d).stop
      && Unknown(all, d) == 1 + Unknown(m, d) && Reach(all, d) == Max(2, 1 + Reach(m, d))
  {
    var all := "\\q" + m;
    assert Drop(all, 2) == m;
    assert At(all, 0) == '\\' && At(all, 1) == 'q';
    UnknownIsPassed(all, d);
    hide Meant, Unknown;
  }

  /** A literal of unknown escapes that is not ended overruns a ring exactly if the ring does not hold one character
      more than there are: sixteen of them overrun it with either macro. */
  lemma EscapesOverrunIff(n: nat, d: char, g: Gate, room: nat)
    requires IsDelimiter(d) && n > 0
    ensures ReadFits(Escapes(n), 0, d, g, room) <==> n < room
  {
    EscapesReach(n, d);
    FitsIff(Escapes(n), 0, d, g, room);
    assert Drop(Escapes(n), 0) == Escapes(n);
  }

  /** After an unknown escape, text is lost and the closing quote stays in the input. */
  lemma UnknownEscapeLosesText()
    ensures ScanString("\\qx' y", 0, '\'') == Scan("q", "\\qx", Closed)
  {
  }

  // ---------------------------------------------------------------- comments

  /** The loop of `lex_xml_comment` behind the opening. */
  function CommentRound(rest: string): Round {
    if rest == "" then Round("", "", 0, Some(Exhausted))
    else if rest[0] == '-' then
      if At(rest, 1) == '-' then
        if At(rest, 2) == '>' then Round("", Take(rest, 3), 0, Some(Closed))
        else Round(Take(rest, 3), Take(rest, 3), 0, None)
      else Round(Take(rest, 2), Take(rest, 2), 0, None)
    else Round(Take(rest, 1), Take(rest, 1), 0, None)
  }

  function CommentLooks(rest: string): nat {
    if At(rest, 0) != '-' then 1 else if At(rest, 1) != '-' then 2 else 3
  }

  function CommentStep(rest: string, g: Gate): (r: (Round, Gate))
    ensures r.0.stop == None ==> r.0.used != "" && rest != ""
  {
    Gated(CommentRound(rest), CommentLooks(rest), rest, 0, g)
  }

  /** What the loop of `lex_xml_comment` makes of any input. */
  function ReadComment(rest: string, g: Gate): (Scan, Gate)
    decreases |rest|
  {
    var (r, g') := CommentStep(rest, g);
    match r.stop
    case Some(stop) => (Scan(r.text, r.used, stop), g')
    case None =>
      var (s, g'') := ReadComment(Drop(rest, |r.used|), g');
      (Prefixed(r.text, r.used, s), g'')
  }

  /** Production [15] in section 2.5 of XML 1.0: single characters other than the hyphen, and pairs of a
      hyphen and another character. */
  predicate IsCommentBody(s: string) {
    if s == "" then true
    else if s[0] != '-' then IsCommentBody(s[1..])
    else |s| >= 2 && s[1] != '-' && IsCommentBody(s[2..])
  }

  /** In other words: no two hyphens in a row, and none at the end. */
  lemma {:induction false} IsCommentBodyIff(s: string)
    ensures IsCommentBody(s) <==>
      (forall i :: 0 < i < |s| ==> !(s[i - 1] == '-' && s[i] == '-')) && (s != "" ==> s[|s| - 1] != '-')
    decreases |s|
  {
    if s != "" && (s[0] != '-' || (|s| >= 2 && s[1] != '-')) {
      var n := if s[0] == '-' then 2 else 1;
      IsCommentBodyIff(s[n..]);
      assert s == s[..n] + s[n..];
      PairsBehind(s, n);
    }
  }

  /** No two hyphens in a row, and none at the end. */
  predicate NoPairs(s: string) {
    (forall i :: 0 < i < |s| ==> !(s[i - 1] == '-' && s[i] == '-')) && (s != "" ==> s[|s| - 1] != '-')
  }

  lemma PairsBehind(s: string, n: nat)
    requires 1 <= n <= |s| && n == if s[0] == '-' then 2 else 1
    requires s[n - 1] != '-'
    ensures NoPairs(s) <==> NoPairs(s[n..])
  {
    var t := s[n..];
    if NoPairs(t) {
      forall i | 0 < i < |s| ensures !(s[i - 1] == '-' && s[i] == '-') {
        if i > n {
          assert t[i - n - 1] == s[i - 1] && t[i - n] == s[i];
        }
      }
    }
    if NoPairs(s) {
      forall i | 0 < i < |t| ensures !(t[i - 1] == '-' && t[i] == '-') {
        var j := n + i;
        assert s[j - 1] == t[i - 1] && s[j] == t[i];
      }
    }
  }

  /** The production, and pairs of hyphens in front of a character other than the closing bracket; no round starts with
      a character that ends the input, and none reads an invalid one. */
  predicate Scannable(s: string) {
    s != "" ==>
      && Opens(s[0])
      && if s[0] != '-' then Scannable(s[1..])
         else if |s| >= 2 && s[1] != '-' then !IsBad(s[1]) && Scannable(s[2..])
         else |s| >= 3 && s[2] != '>' && !IsBad(s[2]) && Scannable(s[3..])
  }

  lemma {:induction false} SilentComment(rest: string, g: Gate)
    requires !g.emits
    ensures ReadComment(rest, g).0.text == ""
    decreases |rest|
  {
    var (r, g') := CommentStep(rest, g);
    if r.stop == None {
      SilentComment(Drop(rest, |r.used|), g');
    }
  }

  /** What one round consumes unless it closes the comment. */
  predicate IsFront(a: string) {
    || (|a| == 1 && a[0] != '-')
    || (|a| == 2 && a[0] == '-' && a[1] != '-')
    || (|a| == 3 && a[0] == '-' && a[1] == '-' && a[2] != '>')
  }

  lemma CommentFront(a: string, rest: string, g: Gate)
    requires IsFront(a) && Trusted(g, a + rest)
    ensures var g' := Consume(Look(g, a + rest, |a|), |a|);
      var (s, g'') := ReadComment(rest, g');
      if Opens(a[0]) && forall c :: c in a ==> !IsBad(c) then
        Trusted(g', rest) && g'.flagged == g.flagged && ReadComment(a + rest, g) == (Prefixed(a, a, s), g'')
      else
        ReadComment(a + rest, g).0.text == ""
  {
    var all := a + rest;
    var n := |a|;
    OpensIff(g, all);
    TrustedOn(g, all, n);
    assert Drop(all, n) == rest && Take(all, n) == a && all[..n] == a;
    assert forall i :: 0 <= i < n ==> At(all, i) == a[i];
    assert CommentRound(all) == Round(a, a, 0, None) && CommentLooks(all) == n;
    hide CommentRound, CommentLooks, Trusted;
    if !EndsAt(g, all) && !Look(g, all, n).emits {
      SilentComment(rest, Consume(Look(g, all, n), n));
    }
  }

  /** A single hyphen or a pair in front of the closing delimiter, or a closing delimiter inside, is misread. */
  lemma CommentMisread(body: string, tail: string, g: Gate)
    requires body != "" && body[0] == '-' && (|body| >= 2 ==> body[1] == '-') && (|body| >= 3 ==> body[2] == '>')
    requires Trusted(g, body + ("-->" + tail))
    ensures ReadComment(body + ("-->" + tail), g).0.text != body
  {
    var rest := body + ("-->" + tail);
    assert rest[0] == '-' && rest[1] == '-';
    OpensIff(g, rest);
    TrustedOn(g, rest, 3);
    if |body| >= 3 {
      assert rest[2] == '>';
    } else {
      assert rest[2] == '-';
      assert forall i :: 0 <= i < 3 ==> !IsBad(At(rest, i));
      assert |ReadComment(rest, g).0.text| >= 3;
    }
  }

  lemma CommentEnd(tail: string, g: Gate)
    requires Trusted(g, "-->" + tail)
    ensures var (s, g') := ReadComment("-->" + tail, g);
      s == Scan("", "-->", Closed) && g'.emits && g'.flagged == g.flagged
  {
    var rest := "-->" + tail;
    OpensIff(g, rest);
    TrustedOn(g, rest, 3);
    assert Take(rest, 3) == "-->";
  }

  lemma SplitFront(s: string, n: nat, t: string)
    requires n <= |s|
    ensures s == s[..n] + s[n..] && s + t == s[..n] + (s[n..] + t)
    ensures forall c :: c in s[..n] <==> exists i :: 0 <= i < n && s[i] == c
  {
  }

  /** For every body and whatever follows: exactly the scannable bodies are emitted as they are, with the input going
      on just behind the closing delimiter. */
  lemma {:induction false} CommentReadIff(body: string, tail: string, g: Gate)
    requires Trusted(g, body + ("-->" + tail))
    ensures var (s, g') := ReadComment(body + ("-->" + tail), g);
      && (s == Scan(body, body + "-->", Closed) <==> Scannable(body))
      && (s == Scan(body, body + "-->", Closed) ==> g'.emits && g'.flagged == g.flagged)
    decreases |body|
  {
    if body == "" {
      assert body + ("-->" + tail) == "-->" + tail;
      CommentEnd(tail, g);
    } else if body[0] == '-' && (|body| >= 2 ==> body[1] == '-') && (|body| >= 3 ==> body[2] == '>') {
      CommentMisread(body, tail, g);
    } else {
      var n := if body[0] != '-' then 1 else if body[1] != '-' then 2 else 3;
      var a, b := body[..n], body[n..];
      var rest := b + ("-->" + tail);
      SplitFront(body, n, "-->" + tail);
      SplitFront(body, n, "-->");
      CommentFront(a, rest, g);
      var g' := Consume(Look(g, a + rest, n), n);
      var good := Opens(a[0]) && forall c :: c in a ==> !IsBad(c);
      ScannableFront(body, n);
      hide ReadComment, Trusted, Scannable, Opens, IsBad, Prefixed;
      if good {
        CommentReadIff(b, tail, g');
        PrefixedIff(a, b, a, b + "-->", ReadComment(rest, g').0, Closed);
      }
    }
  }

  lemma ScannableFront(s: string, n: nat)
    requires 1 <= n <= |s| && IsFront(s[..n])
    ensures Scannable(s) <==> Opens(s[0]) && (forall c :: c in s[..n] ==> !IsBad(c)) && Scannable(s[n..])
  {
    var a := s[..n];
    assert forall i :: 0 <= i < n ==> a[i] == s[i];
    assert !IsBad('-');
    assert (forall c :: c in a ==> !IsBad(c)) <==> forall i :: 0 <= i < n ==> !IsBad(s[i]);
  }

  lemma {:induction false} BodiesAreScannable(s: string)
    requires IsCommentBody(s) && Clean(s)
    ensures Scannable(s)
  {
    if s != "" {
      var n := if s[0] != '-' then 1 else 2;
      BodiesAreScannable(s[n..]);
      ScannableFront(s, n);
      assert s == s[..n] + s[n..];
    }
  }

  /** In particular every body of the production that is made of valid characters is read back. */
  lemma CommentRoundTrip(body: string, tail: string, g: Gate)
    requires IsCommentBody(body) && Clean(body) && Trusted(g, body + ("-->" + tail))
    ensures ReadComment(body + ("-->" + tail), g).0 == Scan(body, body + "-->", Closed)
  {
    BodiesAreScannable(body);
    CommentReadIff(body, tail, g);
  }

  /** A pair of hyphens takes any valid character along but the bracket. */
  lemma PairReadIff(c: char, tail: string, g: Gate)
    requires Trusted(g, ['-', '-', c] + ("-->" + tail)) && IsText(c)
    ensures ReadComment(['-', '-', c] + ("-->" + tail), g).0 == Scan(['-', '-', c], ['-', '-', c] + "-->", Closed) <==>
      c != '>'
  {
    var body := ['-', '-', c];
    CommentReadIff(body, tail, g);
    assert body[3..] == "";
  }

  lemma NothingRead(g: Gate)
    ensures ReadComment("", g).0 == Scan("", "", Exhausted)
  {
  }

  /** Three hyphens before the bracket close nothing. */
  lemma ThreeHyphensDoNotClose(g: Gate)
    requires Trusted(g, "--->")
    ensures ReadComment("--->", g).0 == Scan("--->", "--->", Exhausted)
  {
    hide Look, Consume, ReadComment;
    CommentFront("---", ">", g);
    CommentFront(">", "", Consume(Look(g, "---" + ">", 3), 3));
    NothingRead(Consume(Look(Consume(Look(g, "---" + ">", 3), 3), ">" + "", 1), 1));
    assert "---" + ">" == "--->" && ">" + "" == ">";
  }

  /** After some rounds that emitted `text` and consumed `used`, the loop stands before `rest`. */
  ghost predicate StringSoFar(all: string, d: char, g0: Gate, text: string, used: string, rest: string, skew: nat,
      g: Gate) {
    var (s, g') := ReadString(rest, skew, d, g);
    ReadString(all, 0, d, g0) == (Prefixed(text, used, s), g')
  }

  lemma PrefixedTwice(a: string, b: string, c: string, d: string, s: Scan)
    ensures Prefixed("", "", s) == s
    ensures Prefixed(a, b, Prefixed(c, d, s)) == Prefixed(a + c, b + d, s)
  {
    assert "" + s.text == s.text && "" + s.used == s.used;
    assert a + (c + s.text) == a + c + s.text && b + (d + s.used) == b + d + s.used;
  }

  lemma StringStarts(all: string, d: char, g: Gate)
    ensures StringSoFar(all, d, g, "", "", all, 0, g)
  {
    PrefixedTwice("", "", "", "", ReadString(all, 0, d, g).0);
  }

  lemma StringGoesOn(all: string, d: char, g0: Gate, text: string, used: string, rest: string, skew: nat, g: Gate)
    requires StringSoFar(all, d, g0, text, used, rest, skew, g)
    ensures var (r, g') := StringStep(rest, skew, d, g);
      match r.stop
      case Some(stop) => ReadString(all, 0, d, g0) == (Scan(text + r.text, used + r.used, stop), g')
      case None => StringSoFar(all, d, g0, text + r.text, used + r.used, Drop(rest, |r.used|), r.skew, g')
  {
    var (r, g') := StringStep(rest, skew, d, g);
    if r.stop == None {
      PrefixedTwice(text, used, r.text, r.used, ReadString(Drop(rest, |r.used|), r.skew, d, g').0);
    }
  }

  ghost predicate CommentSoFar(all: string, g0: Gate, text: string, used: string, rest: string, g: Gate) {
    var (s, g') := ReadComment(rest, g);
    ReadComment(all, g0) == (Prefixed(text, used, s), g')
  }

  lemma CommentStarts(all: string, g: Gate)
    ensures CommentSoFar(all, g, "", "", all, g)
  {
    PrefixedTwice("", "", "", "", ReadComment(all, g).0);
  }

  lemma CommentGoesOn(all: string, g0: Gate, text: string, used: string, rest: string, g: Gate)
    requires CommentSoFar(all, g0, text, used, rest, g)
    ensures var (r, g') := CommentStep(rest, g);
      match r.stop
      case Some(stop) => ReadComment(all, g0) == (Scan(text + r.text, used + r.used, stop), g')
      case None => CommentSoFar(all, g0, text + r.text, used + r.used, Drop(rest, |r.used|), g')
  {
    var (r, g') := CommentStep(rest, g);
    if r.stop == None {
      PrefixedTwice(text, used, r.text, r.used, ReadComment(Drop(rest, |r.used|), g').0);
    }
  }
}

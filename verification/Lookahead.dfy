/** How staged and unread characters make up the input, and how a stretch of it becomes token text. */
module Lookahead {
  import opened Arena
  import opened Tokens
  import opened Characters
  import opened Gates

  function Zeros(n: nat): (r: string)
    ensures |r| == n
    ensures forall i :: 0 <= i < n ==> r[i] == '\0'
  {
    seq(n, _ => '\0')
  }

  /** The staged characters, with the unread ones behind, are the rest of the input; once that is used up,
      zeros are staged. */
  ghost predicate Holds(staged: string, unread: string, rest: string, pads: nat) {
    staged + unread == rest + Zeros(pads) && (pads > 0 ==> unread == "")
  }

  lemma HoldsAt(staged: string, unread: string, rest: string, pads: nat, i: nat)
    requires Holds(staged, unread, rest, pads) && i < |staged|
    ensures staged[i] == At(rest, i)
  {
    assert (staged + unread)[i] == staged[i];
    assert (rest + Zeros(pads))[i] == At(rest, i);
  }

  lemma HoldsRead(staged: string, unread: string, rest: string, pads: nat)
    requires Holds(staged, unread, rest, pads) && unread != ""
    ensures Holds(staged + [unread[0]], unread[1..], rest, pads)
    ensures unread[0] == At(rest, |staged|)
  {
    assert staged + unread == staged + [unread[0]] + unread[1..];
    assert rest + Zeros(pads) == rest;
    assert (staged + unread)[|staged|] == unread[0];
  }

  lemma HoldsPad(staged: string, rest: string, pads: nat)
    requires Holds(staged, "", rest, pads)
    ensures Holds(staged + ['\0'], "", rest, pads + 1)
    ensures At(rest, |staged|) == '\0'
  {
    assert staged == rest + Zeros(pads);
    assert Zeros(pads + 1) == Zeros(pads) + ['\0'];
  }

  lemma HoldsDeque(staged: string, unread: string, rest: string, pads: nat)
    requires Holds(staged, unread, rest, pads) && staged != ""
    ensures rest != "" ==> Holds(staged[1..], unread, rest[1..], pads)
    ensures rest == "" ==> pads > 0 && Holds(staged[1..], unread, "", pads - 1)
  {
    assert (staged + unread)[1..] == staged[1..] + unread;
    if rest != "" {
      assert (rest + Zeros(pads))[1..] == rest[1..] + Zeros(pads);
    } else {
      assert pads > 0 && Zeros(pads)[1..] == Zeros(pads - 1);
    }
  }

  lemma HoldsEmpty(unread: string, rest: string, pads: nat)
    requires Holds("", unread, rest, pads)
    ensures rest == unread && pads == 0
    ensures forall s: string :: Holds("", s, s, 0)
  {
    forall s: string ensures Holds("", s, s, 0) {
      assert "" + s == s + Zeros(0);
    }
    assert "" + unread == unread;
    assert |rest + Zeros(pads)| == |rest| + pads;
    assert rest + Zeros(0) == rest;
  }

  // ---------------------------------------------------------------- from input to token text

  /** What a recogniser reads and changes: the rest of the input and its position, the count of emitted characters,
      the transaction of the arena and all that decides whether it goes on, and the gate. */
  datatype View = View(rest: string, at: Position, emitted: nat, committed: string, pending: string, store: Store,
                       gate: Gate)

  /** The text was added character by character, as far as the arena took it. */
  ghost predicate Gained(v: View, w: View, text: string) {
    && w.store == AddOnes(v.store, |text|)
    && (w.store.failed || w.pending == v.pending + text)
  }

  /** The characters `used` were consumed and `text` was emitted. */
  ghost predicate Moved(v: View, w: View, used: string, text: string) {
    && used == Take(v.rest, |used|) && w.rest == Drop(v.rest, |used|)
    && w.at == Advance(v.at, used) && w.emitted == v.emitted + |text|
    && w.committed == v.committed && Gained(v, w, text)
  }

  /** Nothing happens. */
  lemma MovedNot(v: View, g: Gate)
    ensures Moved(v, v.(gate := g), "", "") && Take(v.rest, 0) == "" && Drop(v.rest, 0) == v.rest
  {
  }

  lemma MovedOn(u: View, v: View, w: View, a: string, x: string, b: string, y: string)
    requires Moved(u, v, a, x) && Moved(v, w, b, y)
    ensures Moved(u, w, a + b, x + y)
  {
    AdvanceConcat(u.at, a, b);
    TakeMore(u.rest, |a|, |b|);
    AddOnesOn(u.store, |x|, |y|);
    if v.store.failed {
      FailedKeeps(v.store, |y|);
    }
    hide AddOnes;
    assert u.pending + (x + y) == u.pending + x + y;
  }

  /** One character more, of those in front. */
  lemma MovedOneMore(u: View, v: View, w: View, i: nat, g: Gate)
    requires Moved(u, v, Take(u.rest, i), Shown(g, Take(u.rest, i))) && v.gate == Consume(g, i)
    requires Moved(v, w, Take(v.rest, 1), Shown(v.gate, Take(v.rest, 1))) && w.gate == Consume(v.gate, 1)
    ensures Moved(u, w, Take(u.rest, i + 1), Shown(g, Take(u.rest, i + 1))) && w.gate == Consume(g, i + 1)
    ensures w.rest == Drop(u.rest, i + 1)
  {
    TakeMore(u.rest, i, 1);
    MovedOn(u, v, w, Take(u.rest, i), Shown(g, Take(u.rest, i)), Take(v.rest, 1), Shown(g, Take(v.rest, 1)));
  }

  lemma MovedByOne(v: View, u: View, w: View, c: char, text: string)
    requires c == At(v.rest, 0) && u.(gate := v.gate) == v.(rest := Drop(v.rest, 1), at := Step(v.at, c))
    requires Moved(u, w, "", text)
    ensures Moved(v, w, Take(v.rest, 1), text) && Take(v.rest, 1) == [c]
  {
    assert Take(v.rest, 1) == [c];
    AdvanceOne(v.at, "", c);
    assert "" + [c] == [c];
  }

  /** Characters dropped without emitting anything. */
  lemma MovedBySkipping(v: View, u: View, n: nat)
    requires u.(gate := v.gate) == v.(rest := Drop(v.rest, n), at := Advance(v.at, Take(v.rest, n)))
    ensures Moved(v, u, Take(v.rest, n), "")
  {
  }

  // ---------------------------------------------------------------- runs

  /** `n` characters of a run are consumed and `text` is emitted; the run goes on before `rest`. */
  ghost predicate RunSoFar(k: Class, all: string, g0: Gate, n: nat, text: string, rest: string, g: Gate) {
    var q := RunOf(k, rest, g);
    n <= |all| && rest == all[n..] && RunOf(k, all, g0) == Run(n + q.n, text + q.text, q.gate)
  }

  lemma RunStarts(k: Class, all: string, g: Gate)
    ensures RunSoFar(k, all, g, 0, "", all, g)
  {
    assert all[0..] == all && "" + RunOf(k, all, g).text == RunOf(k, all, g).text;
  }

  lemma RunGoesOn(k: Class, all: string, g0: Gate, n: nat, text: string, rest: string, g: Gate)
    requires RunSoFar(k, all, g0, n, text, rest, g)
    ensures !EndsAt(g, rest) && In(k, rest[0]) ==>
      var g1 := Look(g, rest, 1);
      RunSoFar(k, all, g0, n + 1, text + Shown(g1, [rest[0]]), rest[1..], Consume(g1, 1))
    ensures EndsAt(g, rest) ==> RunOf(k, all, g0) == Run(n, text, g)
    ensures !EndsAt(g, rest) && !In(k, rest[0]) ==> RunOf(k, all, g0) == Run(n, text, Look(g, rest, 1))
  {
    if !EndsAt(g, rest) && In(k, rest[0]) {
      var g1 := Look(g, rest, 1);
      var q := RunOf(k, rest[1..], Consume(g1, 1));
      assert text + (Shown(g1, [rest[0]]) + q.text) == text + Shown(g1, [rest[0]]) + q.text;
    }
  }
}

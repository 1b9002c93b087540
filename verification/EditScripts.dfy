/** Edit scripts: what they do to a string, what they cost, how two of them compose, and the
    cheapest of them. */
module EditScripts {
  import opened Options

  datatype Edit = Keep | Substitute(c: char) | Insert(c: char) | Delete

  /** A pass over the source string, its last step acting on the last characters. */
  datatype Script = Empty | Then(before: Script, last: Edit)

  function Init(s: string): string
    requires s != []
  {
    s[..|s| - 1]
  }

  function Last(s: string): char
    requires s != []
  {
    s[|s| - 1]
  }

  function Append(r: Option<string>, c: char): Option<string> {
    if r.None? then None else Some(r.value + [c])
  }

  /** What a script makes of `s`; nothing if it runs past the start of `s` or leaves part of it. */
  function Apply(p: Script, s: string): Option<string> {
    match p
    case Empty => if s == [] then Some([]) else None
    case Then(q, Insert(c)) => Append(Apply(q, s), c)
    case Then(q, Keep) => if s == [] then None else Append(Apply(q, Init(s)), Last(s))
    case Then(q, Substitute(c)) => if s == [] then None else Append(Apply(q, Init(s)), c)
    case Then(q, Delete) => if s == [] then None else Apply(q, Init(s))
  }

  predicate Turns(p: Script, s: string, t: string) {
    Apply(p, s) == Some(t)
  }

  function Cost(p: Script): nat {
    match p
    case Empty => 0
    case Then(q, e) => Cost(q) + if e.Keep? then 0 else 1
  }

  // ---------------------------------------------------------------- the cheapest script

  function Min(x: nat, y: nat): nat {
    if x < y then x else y
  }

  /** The recurrence behind the rows of the algorithm. */
  function Distance(s: string, t: string): nat
    decreases |s| + |t|
  {
    if s == [] then |t|
    else if t == [] then |s|
    else Min(Distance(Init(s), t) + 1,
         Min(Distance(s, Init(t)) + 1,
             Distance(Init(s), Init(t)) + if Last(s) == Last(t) then 0 else 1))
  }

  /** A script that reaches the distance. */
  function Cheapest(s: string, t: string): Script
    decreases |s| + |t|
  {
    if s == [] && t == [] then Empty
    else if s == [] then Then(Cheapest(s, Init(t)), Insert(Last(t)))
    else if t == [] then Then(Cheapest(Init(s), t), Delete)
    else if Distance(s, t) == Distance(Init(s), t) + 1 then Then(Cheapest(Init(s), t), Delete)
    else if Distance(s, t) == Distance(s, Init(t)) + 1 then Then(Cheapest(s, Init(t)), Insert(Last(t)))
    else Then(Cheapest(Init(s), Init(t)), if Last(s) == Last(t) then Keep else Substitute(Last(t)))
  }

  lemma InitLast(s: string)
    requires s != []
    ensures s == Init(s) + [Last(s)]
  {
  }

  /** Some script reaches the distance. */
  lemma {:induction false} DistanceIsReached(s: string, t: string)
    ensures Turns(Cheapest(s, t), s, t) && Cost(Cheapest(s, t)) == Distance(s, t)
    decreases |s| + |t|
  {
    if t != [] { InitLast(t); }
    if s != [] && t != [] {
      DistanceIsReached(Init(s), t);
      DistanceIsReached(s, Init(t));
      DistanceIsReached(Init(s), Init(t));
    } else if s != [] {
      DistanceIsReached(Init(s), t);
    } else if t != [] {
      DistanceIsReached(s, Init(t));
    }
  }

  /** No script is cheaper. */
  lemma {:induction false} DistanceIsLeast(p: Script, s: string, t: string)
    requires Turns(p, s, t)
    ensures Cost(p) >= Distance(s, t)
  {
    match p
    case Empty =>
    case Then(q, Insert(c)) =>
      var r := Apply(q, s).value;
      assert Init(t) == r;
      DistanceIsLeast(q, s, r);
    case Then(q, Delete) =>
      DistanceIsLeast(q, Init(s), t);
    case Then(q, e) =>
      var r := Apply(q, Init(s)).value;
      assert Init(t) == r;
      DistanceIsLeast(q, Init(s), r);
  }

  // ---------------------------------------------------------------- composing scripts

  /** First `p`, then `q`, in one pass. */
  function Compose(p: Script, q: Script): Script
    decreases p, q
  {
    if p.Then? && p.last.Delete? then Then(Compose(p.before, q), Delete)
    else if q.Then? && q.last.Insert? then Then(Compose(p, q.before), q.last)
    else if p.Empty? || q.Empty? then Empty
    else
      var r := Compose(p.before, q.before);
      match (p.last, q.last)
      case (e, Keep) => Then(r, e)
      case (Insert(_), Substitute(c)) => Then(r, Insert(c))
      case (_, Substitute(c)) => Then(r, Substitute(c))
      case (Insert(_), _) => r
      case (_, _) => Then(r, Delete)
  }

  /** The composed script does what the two do one after the other, for no more than both cost. */
  lemma {:induction false} ComposeWorks(p: Script, q: Script, s: string, t: string, u: string)
    requires Turns(p, s, t) && Turns(q, t, u)
    ensures Turns(Compose(p, q), s, u) && Cost(Compose(p, q)) <= Cost(p) + Cost(q)
    decreases p, q
  {
    if p.Then? && p.last.Delete? {
      ComposeWorks(p.before, q, Init(s), t, u);
    } else if q.Then? && q.last.Insert? {
      ComposeWorks(p, q.before, s, t, Apply(q.before, t).value);
    } else if p.Then? && q.Then? {
      var s' := if p.last.Insert? then s else Init(s);
      var t' := Apply(p.before, s').value;
      assert Init(t) == t';
      ComposeWorks(p.before, q.before, s', t', Apply(q.before, t').value);
    }
  }

  // ---------------------------------------------------------------- a metric

  lemma {:induction false} FreeScriptKeeps(p: Script, s: string, t: string)
    requires Turns(p, s, t) && Cost(p) == 0
    ensures s == t
  {
    if p.Then? {
      var r := Apply(p.before, Init(s)).value;
      FreeScriptKeeps(p.before, Init(s), r);
      InitLast(s);
    }
  }

  lemma {:induction false} DistanceToItself(s: string)
    ensures Distance(s, s) == 0
    decreases |s|
  {
    if s != [] {
      DistanceToItself(Init(s));
    }
  }

  /** Zero exactly between equal strings. */
  lemma {:induction false} ZeroIffEqual(s: string, t: string)
    ensures Distance(s, t) == 0 <==> s == t
  {
    DistanceIsReached(s, t);
    DistanceToItself(s);
    if Distance(s, t) == 0 {
      FreeScriptKeeps(Cheapest(s, t), s, t);
    }
  }

  lemma {:induction false} Symmetric(s: string, t: string)
    ensures Distance(s, t) == Distance(t, s)
    decreases |s| + |t|
  {
    if s != [] && t != [] {
      Symmetric(Init(s), t);
      Symmetric(s, Init(t));
      Symmetric(Init(s), Init(t));
    }
  }

  /** One character more, wherever it stands, is one edit away, and so is one character that is another. */
  lemma OneEdit(a: string, b: string, c: char, d: char)
    ensures Distance(a + b, a + [c] + b) == 1 && Distance(a + [c] + b, a + b) == 1
    ensures c != d ==> Distance(a + [c] + b, a + [d] + b) == 1
  {
    InsertedOnce(a, b, c);
    Symmetric(a + b, a + [c] + b);
    ReplacedOnce(a, b, c, d);
    assert |a + b| != |a + [c] + b|;
    ZeroIffEqual(a + b, a + [c] + b);
    assert (a + [c] + b)[|a|] == c && (a + [d] + b)[|a|] == d;
    ZeroIffEqual(a + [c] + b, a + [d] + b);
  }

  lemma {:induction false} InsertedOnce(a: string, b: string, c: char)
    ensures Distance(a + b, a + [c] + b) <= 1
    decreases |b|
  {
    var s, t := a + b, a + [c] + b;
    if b == [] {
      assert s == a && Init(t) == a;
      DistanceToItself(a);
    } else {
      assert Init(s) == a + Init(b) && Init(t) == a + [c] + Init(b);
      InsertedOnce(a, Init(b), c);
    }
  }

  lemma {:induction false} ReplacedOnce(a: string, b: string, c: char, d: char)
    ensures Distance(a + [c] + b, a + [d] + b) <= 1
    decreases |b|
  {
    var s, t := a + [c] + b, a + [d] + b;
    if b == [] {
      assert Init(s) == a && Init(t) == a;
      DistanceToItself(a);
    } else {
      assert Init(s) == a + [c] + Init(b) && Init(t) == a + [d] + Init(b);
      ReplacedOnce(a, Init(b), c, d);
    }
  }

  /** The triangle inequality, by composing the two cheapest scripts. */
  lemma {:induction false} Triangle(s: string, t: string, u: string)
    ensures Distance(s, u) <= Distance(s, t) + Distance(t, u)
  {
    DistanceIsReached(s, t);
    DistanceIsReached(t, u);
    ComposeWorks(Cheapest(s, t), Cheapest(t, u), s, t, u);
    DistanceIsLeast(Compose(Cheapest(s, t), Cheapest(t, u)), s, u);
  }
}

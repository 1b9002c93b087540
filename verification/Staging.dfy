/** The staging area of the lexer: a ring of characters that were looked at and not yet consumed. */
module Staging {
  import Bits

  /** `LEXER_STAGING_AREA_MAX_SIZE`. */
  const SLOTS: nat := 16
  /** Characters the ring can hold with either macro. */
  const LEAST_CAPACITY: nat := 15

  /** The two texts of the wrapping macro. */
  datatype Wrapping = IfVersion | ModuloVersion

  /** Steps until an iterator is back where it was. */
  function Period(w: Wrapping): nat {
    if w == IfVersion then SLOTS + 1 else SLOTS
  }

  /** `STAGING_AREA_ITERATOR_INC_AND_WRAP`. */
  function IncAndWrap(w: Wrapping, it: nat): nat {
    match w
    case IfVersion => if it == SLOTS then 0 else it + 1
    case ModuloVersion => (it + 1) % SLOTS
  }

  /** Characters the ring can hold: one slot is lost. */
  function Capacity(w: Wrapping): nat {
    Period(w) - 1
  }

  function Walk(w: Wrapping, steps: nat): nat {
    if steps == 0 then 0 else IncAndWrap(w, Walk(w, steps - 1))
  }

  /** The macro in use has period 17: every seventeenth slot lies behind the array, in the padding of the
      enclosing struct.  The other version stays in the array. */
  lemma {:induction false} WalkIs(w: Wrapping, steps: nat)
    ensures Walk(w, steps) == steps % Period(w)
    ensures Walk(w, steps) >= SLOTS <==> w == IfVersion && steps % 17 == 16
  {
    if steps > 0 {
      WalkIs(w, steps - 1);
      NextModulo(steps - 1, Period(w));
    }
  }

  lemma NextModulo(x: nat, m: nat)
    requires m > 0
    ensures (x + 1) % m == if x % m == m - 1 then 0 else x % m + 1
  {
    var q, r := x / m, x % m;
    assert x == m * q + r;
    if r == m - 1 {
      assert m * (q + 1) == m * q + m;
      Bits.ModUnique(x + 1, m, q + 1, 0);
    } else {
      Bits.ModUnique(x + 1, m, q, r + 1);
    }
  }

  /** `n` slots behind slot `it`. */
  function Slot(w: Wrapping, it: nat, n: nat): nat {
    if it + n >= Period(w) then it + n - Period(w) else it + n
  }

  lemma SlotShift(w: Wrapping, it: nat, n: nat)
    requires it < Period(w) && n < Period(w)
    ensures IncAndWrap(w, it) < Period(w) && Slot(w, IncAndWrap(w, it), n) == Slot(w, it, n + 1)
    ensures Slot(w, it, n) == it <==> n == 0
  {
  }

  class StagingArea {
    const wrapping: Wrapping
    /** The slots, and the padding byte behind them. */
    const buf: array<char>
    var startIt: nat
    var endIt: nat
    var it: nat
    /** The characters in the ring, and how many of them were looked at again. */
    ghost var staged: string
    ghost var looked: nat

    ghost predicate Valid()
      reads this, buf
    {
      && buf.Length == SLOTS + 1
      && startIt < Period(wrapping) && looked <= |staged| < Period(wrapping)
      && endIt == Slot(wrapping, startIt, |staged|)
      && it == Slot(wrapping, startIt, looked)
      && forall n :: 0 <= n < |staged| ==> buf[Slot(wrapping, startIt, n)] == staged[n]
    }

    constructor (wrapping: Wrapping)
      ensures Valid() && staged == "" && looked == 0 && fresh(buf) && this.wrapping == wrapping
    {
      this.wrapping := wrapping;
      buf := new char[SLOTS + 1];
      startIt, endIt, it, staged, looked := 0, 0, 0, "", 0;
    }

    /** `staging_area_is_empty`. */
    predicate IsEmpty()
      requires Valid()
      reads this, buf
      ensures IsEmpty() <==> staged == ""
    {
      endIt == startIt
    }

    /** `staging_area_is_full`.  With the modulo version it holds exactly when one slot is left.  With the macro in use
        it holds for 15 characters only in two places, and misses that 16 are too many in two others. */
    predicate IsFull()
      requires Valid()
      reads this, buf
      ensures |staged| < LEAST_CAPACITY ==> !IsFull()
      ensures wrapping == ModuloVersion ==> (IsFull() <==> |staged| == LEAST_CAPACITY)
      ensures wrapping == IfVersion && |staged| == LEAST_CAPACITY ==> (IsFull() <==> startIt <= 1)
      ensures wrapping == IfVersion && |staged| == LEAST_CAPACITY + 1 ==> (IsFull() <==> 1 <= startIt <= 15)
    {
      (endIt + 1) % SLOTS == startIt
    }

    /** `staging_area_is_undone`. */
    predicate IsUndone()
      requires Valid()
      reads this, buf
      ensures IsUndone() <==> looked == 0
    {
      it == startIt
    }

    predicate AtEnd()
      requires Valid()
      reads this, buf
      ensures AtEnd() <==> looked == |staged|
    {
      it == endIt
    }

    /** `staging_area_enqueue`. */
    method Enqueue(c: char)
      requires Valid() && |staged| < Capacity(wrapping)
      modifies this`endIt, this`staged, buf
      ensures Valid() && staged == old(staged) + [c]
    {
      buf[endIt] := c;
      endIt := IncAndWrap(wrapping, endIt);
      staged := staged + [c];
    }

    /** The character that is looked at next. */
    function Current(): char
      requires Valid() && looked < |staged|
      reads this, buf
      ensures Current() == staged[looked]
    {
      buf[it]
    }

    method Look()
      requires Valid() && looked < |staged|
      modifies this`it, this`looked
      ensures Valid() && looked == old(looked) + 1
    {
      it := IncAndWrap(wrapping, it);
      looked := looked + 1;
    }

    /** `staging_area_peek_first`. */
    function PeekFirst(): char
      requires Valid() && staged != ""
      reads this, buf
      ensures PeekFirst() == staged[0]
    {
      buf[startIt]
    }

    /** `staging_area_deque`. */
    method Deque() returns (c: char)
      requires Valid() && staged != ""
      modifies this`startIt, this`it, this`staged, this`looked
      ensures Valid() && c == old(staged)[0] && staged == old(staged)[1..]
      ensures looked == if old(looked) == 0 then 0 else old(looked) - 1
    {
      forall n: nat | n < Period(wrapping)
        ensures IncAndWrap(wrapping, startIt) < Period(wrapping)
        ensures Slot(wrapping, IncAndWrap(wrapping, startIt), n) == Slot(wrapping, startIt, n + 1)
      {
        SlotShift(wrapping, startIt, n);
      }
      SlotShift(wrapping, startIt, looked);
      hide IncAndWrap, Slot;
      c := buf[startIt];
      if startIt == it {
        it := IncAndWrap(wrapping, it);
      } else {
        looked := looked - 1;
      }
      startIt := IncAndWrap(wrapping, startIt);
      staged := staged[1..];
    }

    /** `undo_staging_area`. */
    method Undo()
      requires Valid()
      modifies this`it, this`looked
      ensures Valid() && looked == 0
    {
      it, looked := startIt, 0;
    }
  }
}

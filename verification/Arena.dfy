/** MArena: a growing stack of bytes that is filled in transactions. */
module Arena {
  import opened Variants
  import Bits
  import SinglePrecision

  /** `MARENA_MINIMUM_ALLOWED_STACK_POINTER_VALUE`: bytes in front that no reference names. */
  const RESERVED: nat := 16
  const U32_MAX: nat := 0xFFFF_FFFF
  const PAGE: nat := 4096

  /** A reference into the arena; 0 stands for failure. */
  type MRef = nat

  /** The sum that is compared with the capacity. */
  function NeededSize(v: Variant, dataSize: nat, stagingSize: nat, size: nat): nat {
    match v
    case AsWritten => dataSize + size
    case Repaired => stagingSize + size  // Repair: bytes are written behind the staged ones
  }

  /** The test that lets `size` bytes through without growing. */
  predicate HasRoom(v: Variant, dataSize: nat, stagingSize: nat, size: nat, capacity: nat) {
    NeededSize(v, dataSize, stagingSize, size) < capacity
  }

  /** The test as written keeps all writes inside the buffer exactly while at most one byte is staged. */
  lemma RoomAsWrittenIff(dataSize: nat, stagingSize: nat, capacity: nat)
    requires dataSize <= stagingSize <= capacity
    ensures (forall size: nat :: HasRoom(AsWritten, dataSize, stagingSize, size, capacity) ==>
      stagingSize + size <= capacity)
       <==> dataSize == capacity || stagingSize <= dataSize + 1
    ensures forall size: nat :: HasRoom(Repaired, dataSize, stagingSize, size, capacity) ==>
      stagingSize + size <= capacity
  {
    if dataSize < capacity && stagingSize > dataSize + 1 {
      assert HasRoom(AsWritten, dataSize, stagingSize, capacity - 1 - dataSize, capacity);
    }
  }

  /** The capacity that `marena_grow` asks for. */
  function GrownSize(capacity: nat): nat {
    if capacity * 2 % (U32_MAX + 1) < capacity then U32_MAX else SinglePrecision.FiveQuarters(capacity) + 8 * PAGE
  }

  /** A growth step adds at least eight pages, unless only the top of the word is left; up to some megabytes it
      is a quarter and eight pages exactly, and above a quarter up to the two roundings. */
  lemma GrownSizeIs(capacity: nat)
    requires capacity <= U32_MAX
    ensures capacity <= GrownSize(capacity) <= U32_MAX
    ensures capacity < 0x8000_0000 ==> GrownSize(capacity) >= capacity + 8 * PAGE
    ensures capacity < 0x8000_0000 <==> GrownSize(capacity) != U32_MAX
    ensures 5 * capacity < 0x100_0000 ==> GrownSize(capacity) == 5 * capacity / 4 + 32768
    ensures capacity < 0x8000_0000 ==>
      var x := GrownSize(capacity) - 32768;
      && 0x100_0000 * 0x100_0000 * 4 * (x + 1) > 5 * 0xFF_FFFF * 0xFF_FFFF * capacity
      && 0x100_0000 * 0x100_0000 * 4 * x <= 5 * 0x100_0001 * 0x100_0001 * capacity
  {
    SinglePrecision.FiveQuartersIs(capacity);
    hide SinglePrecision.FiveQuarters;
    if capacity < 0x8000_0000 {
      Bits.SmallMod(capacity * 2, U32_MAX + 1);
    } else {
      Bits.ModUnique(capacity * 2, U32_MAX + 1, 1, capacity * 2 - U32_MAX - 1);
    }
  }

  /** What `marena_accomodate_for_size` returns, and the capacity it leaves; `granted` is the kernel's answer. */
  function Accommodate(v: Variant, dataSize: nat, stagingSize: nat, size: nat, capacity: nat, canRealloc: bool,
                       granted: bool): (bool, nat)
  {
    if HasRoom(v, dataSize, stagingSize, size, capacity) then (true, capacity)
    else if !canRealloc || capacity == U32_MAX || !granted then (false, capacity)
    else
      var grown := GrownSize(capacity);
      match v
      case AsWritten => (true, grown)
      case Repaired => (stagingSize + size <= grown, grown)  // Repair: one growth step may be too small
  }

  /** `size` more bytes are taken: the sum stays in the word, and there is room or memory for them. */
  predicate Takes(dataSize: nat, stagingSize: nat, size: nat, capacity: nat, canRealloc: bool, granted: bool) {
    stagingSize + size <= U32_MAX &&
      Accommodate(Repaired, dataSize, stagingSize, size, capacity, canRealloc, granted).0
  }

  /** That is so where they leave a byte of room, or else where one growth step makes room for them. */
  lemma TakesIff(dataSize: nat, stagingSize: nat, size: nat, capacity: nat, canRealloc: bool, granted: bool)
    requires capacity <= U32_MAX
    ensures Takes(dataSize, stagingSize, size, capacity, canRealloc, granted) <==>
      || stagingSize + size < capacity
      || (canRealloc && granted && capacity < 0xFFFF_FFFF && stagingSize + size <= GrownSize(capacity))
  {
    GrownSizeIs(capacity);
    hide GrownSize;
  }

  /** As long as the kernel grants memory a single character is taken, up to the top of the word. */
  lemma OneIsTaken(dataSize: nat, stagingSize: nat, capacity: nat)
    requires stagingSize <= capacity <= U32_MAX && stagingSize + 1 < U32_MAX
    ensures Takes(dataSize, stagingSize, 1, capacity, true, true)
  {
    GrownSizeIs(capacity);
    TakesIff(dataSize, stagingSize, 1, capacity, true, true);
    hide GrownSize, Takes;
  }

  /** As written, a reported success means that the bytes fit behind the staged ones exactly if they fit into the
      capacity: into the old one where the test saw room, and else into that of a single growth step.  At the top
      of the word no growth succeeds. */
  lemma SuccessAsWrittenIff(dataSize: nat, stagingSize: nat, size: nat, capacity: nat)
    requires dataSize <= stagingSize <= capacity <= U32_MAX
    ensures (forall canRealloc, granted ::
        var (ok, grown) := Accommodate(AsWritten, dataSize, stagingSize, size, capacity, canRealloc, granted);
        ok ==> stagingSize + size <= grown)
      <==>
        if dataSize + size < capacity then stagingSize + size <= capacity
        else capacity == U32_MAX || stagingSize + size <= GrownSize(capacity)
    ensures forall canRealloc, granted ::
        var (ok, grown) := Accommodate(Repaired, dataSize, stagingSize, size, capacity, canRealloc, granted);
        ok ==> stagingSize + size <= grown
  {
    hide GrownSize;
    var (ok, grown) := Accommodate(AsWritten, dataSize, stagingSize, size, capacity, true, true);
    assert capacity < U32_MAX ==> ok;
  }

  /** A new arena of 128 bytes reports room for a hundred thousand, and has grown to a third of that. */
  lemma OneStepIsTooSmall()
    ensures Accommodate(AsWritten, RESERVED, RESERVED, 100_000, 128, true, true) == (true, 32_928)
  {
    GrownSizeIs(128);
    hide GrownSize;
  }

  // ---------------------------------------------------------------- the state of a transaction

  /** Everything that decides about the bytes that are added next. */
  datatype Store = Store(dataSize: nat, stagingSize: nat, capacity: nat, failed: bool, asked: nat, canRealloc: bool,
                         kernel: nat -> bool)

  /** The capacity that can be had: all of the word if the kernel grants everything. */
  ghost function Top(s: Store): nat {
    if s.canRealloc && (forall i :: s.kernel(i)) then U32_MAX else s.capacity
  }

  /** `size` bytes are added at once. */
  ghost function AddTo(s: Store, size: nat): Store {
    if s.failed || s.stagingSize + size > U32_MAX then s.(failed := true)
    else
      var (ok, capacity) :=
        Accommodate(Repaired, s.dataSize, s.stagingSize, size, s.capacity, s.canRealloc, s.kernel(s.asked));
      var asks := !HasRoom(Repaired, s.dataSize, s.stagingSize, size, s.capacity) && s.canRealloc &&
        s.capacity != U32_MAX;
      s.(stagingSize := if ok then s.stagingSize + size else s.stagingSize, capacity := capacity, failed := !ok,
         asked := if asks then s.asked + 1 else s.asked)
  }

  /** `n` bytes are added one by one. */
  ghost function AddOnes(s: Store, n: nat): Store
    decreases n
  {
    if n == 0 then s else AddOnes(AddTo(s, 1), n - 1)
  }

  lemma {:induction false} AddOnesOn(s: Store, m: nat, n: nat)
    ensures AddOnes(AddOnes(s, m), n) == AddOnes(s, m + n)
    decreases m
  {
    hide AddTo;
    if m > 0 {
      AddOnesOn(AddTo(s, 1), m - 1, n);
    }
  }

  lemma OneMore(s: Store, m: nat)
    ensures AddTo(AddOnes(s, m), 1) == AddOnes(s, m + 1)
  {
    AddOnesOn(s, m, 1);
    hide AddTo;
  }

  lemma {:induction false} FailedKeeps(s: Store, n: nat)
    requires s.failed
    ensures AddOnes(s, n) == s
    decreases n
  {
    if n > 0 {
      FailedKeeps(AddTo(s, 1), n - 1);
    }
  }

  /** One by one, bytes are taken as long as there is room; without growth exactly then; and, with all memory granted,
      up to the top of the word. */
  lemma {:induction false} OnesTaken(s: Store, n: nat)
    requires s.stagingSize <= s.capacity <= U32_MAX && !s.failed
    ensures var t := AddOnes(s, n);
      && t.dataSize == s.dataSize && t.canRealloc == s.canRealloc && t.kernel == s.kernel
      && (!t.failed ==> t.stagingSize == s.stagingSize + n) && s.capacity <= t.capacity <= U32_MAX
      && (s.stagingSize + n < s.capacity ==> !t.failed && t.capacity == s.capacity)
      && (!s.canRealloc ==> t.failed == (n > 0 && s.stagingSize + n >= s.capacity))
      && (s.canRealloc && (forall i :: s.kernel(i)) && s.stagingSize + n < U32_MAX ==> !t.failed)
    decreases n
  {
    if n > 0 {
      var s' := AddTo(s, 1);
      GrownSizeIs(s.capacity);
      TakesIff(s.dataSize, s.stagingSize, 1, s.capacity, s.canRealloc, s.kernel(s.asked));
      hide GrownSize;
      if s'.failed {
        FailedKeeps(s', n - 1);
      } else {
        OnesTaken(s', n - 1);
      }
    }
  }

  // ---------------------------------------------------------------- a whole transaction as written

  /** A transaction as it goes on: `outside` says whether a byte was written behind the buffer. */
  datatype Adding = Adding(stagingSize: nat, capacity: nat, failed: bool, outside: bool)

  /** `marena_add_char`, as far as sizes go. */
  function AddOne(v: Variant, dataSize: nat, s: Adding, canRealloc: bool, granted: bool): Adding {
    if s.failed || s.stagingSize + 1 > U32_MAX then s.(failed := true)
    else
      var (ok, capacity) := Accommodate(v, dataSize, s.stagingSize, 1, s.capacity, canRealloc, granted);
      if !ok then s.(capacity := capacity, failed := true)
      else Adding(s.stagingSize + 1, capacity, false, s.outside || s.stagingSize + 1 > capacity)
  }

  /** One character is added for each answer that the kernel would give. */
  function AddChars(v: Variant, dataSize: nat, s: Adding, canRealloc: bool, granted: seq<bool>): Adding
    decreases |granted|
  {
    if granted == [] then s
    else AddChars(v, dataSize, AddOne(v, dataSize, s, canRealloc, granted[0]), canRealloc, granted[1..])
  }

  /** What was written outside stays so, and a failed transaction writes nothing. */
  lemma {:induction false} AddedFor(v: Variant, dataSize: nat, s: Adding, canRealloc: bool, granted: seq<bool>)
    ensures s.outside || s.failed || s.stagingSize >= U32_MAX ==>
      AddChars(v, dataSize, s, canRealloc, granted).outside == s.outside
    decreases |granted|
  {
    if granted != [] {
      AddedFor(v, dataSize, AddOne(v, dataSize, s, canRealloc, granted[0]), canRealloc, granted[1..]);
    }
  }

  /** As long as the test sees room it lets everything through, up to the top of the word. */
  lemma {:induction false} AddsOutsideIff(dataSize: nat, s: Adding, canRealloc: bool, granted: seq<bool>)
    requires dataSize + 1 < s.capacity <= U32_MAX && s.stagingSize <= s.capacity && !s.failed && !s.outside
    ensures AddChars(AsWritten, dataSize, s, canRealloc, granted).outside <==>
      s.capacity < U32_MAX && s.stagingSize + |granted| > s.capacity
    decreases |granted|
  {
    if granted != [] {
      var s' := AddOne(AsWritten, dataSize, s, canRealloc, granted[0]);
      if s'.outside || s'.failed {
        AddedFor(AsWritten, dataSize, s', canRealloc, granted[1..]);
      } else {
        AddsOutsideIff(dataSize, s', canRealloc, granted[1..]);
      }
    }
  }

  /** The capacity that the first character of a transaction finds or brings about. */
  function FirstCapacity(dataSize: nat, capacity: nat, canRealloc: bool, granted: bool): nat {
    if HasRoom(AsWritten, dataSize, dataSize, 1, capacity) || !canRealloc || capacity == U32_MAX || !granted
    then capacity else GrownSize(capacity)
  }

  /** For every transaction of single characters as written: all are written inside the buffer exactly if they fit into
      the capacity that the first of them finds or brings about, for then the buffer never grows again; or if the first
      one fails, or if the capacity is at the top of the word. */
  lemma CharsInsideIff(dataSize: nat, capacity: nat, canRealloc: bool, granted: seq<bool>)
    requires dataSize <= capacity <= U32_MAX && granted != []
    ensures var first := FirstCapacity(dataSize, capacity, canRealloc, granted[0]);
      AddChars(AsWritten, dataSize, Adding(dataSize, capacity, false, false), canRealloc, granted).outside <==>
        dataSize + 1 < first < U32_MAX && dataSize + |granted| > first
  {
    var s := Adding(dataSize, capacity, false, false);
    var s' := AddOne(AsWritten, dataSize, s, canRealloc, granted[0]);
    GrownSizeIs(capacity);
    hide GrownSize;
    if dataSize + 1 < capacity {
      AddsOutsideIff(dataSize, s, canRealloc, granted);
    } else if s'.failed || dataSize + 1 >= U32_MAX {
      AddedFor(AsWritten, dataSize, s', canRealloc, granted[1..]);
    } else {
      AddsOutsideIff(dataSize, s', canRealloc, granted[1..]);
    }
  }

  /** As repaired, nothing is ever written outside. */
  lemma {:induction false} RepairedIsInside(dataSize: nat, s: Adding, canRealloc: bool, granted: seq<bool>)
    requires s.stagingSize <= s.capacity <= U32_MAX && !s.outside
    ensures !AddChars(Repaired, dataSize, s, canRealloc, granted).outside
    decreases |granted|
  {
    if granted != [] {
      GrownSizeIs(s.capacity);
      var s' := AddOne(Repaired, dataSize, s, canRealloc, granted[0]);
      hide GrownSize;
      RepairedIsInside(dataSize, s', canRealloc, granted[1..]);
    }
  }

  class MArena {
    /** `data_max_size` is its length. */
    var buffer: string
    var dataSize: nat
    var stagingSize: nat
    var failed: bool
    const canRealloc: bool
    /** What the kernel answers to each request for more memory, and how often it was asked. */
    const kernel: nat -> bool
    var asked: nat

    ghost predicate Valid()
      reads this
    {
      && RESERVED <= dataSize <= |buffer| <= U32_MAX
      && (stagingSize == 0 ==> !failed)
      && (stagingSize != 0 ==> dataSize <= stagingSize <= |buffer|)
    }

    /** Between `marena_begin` and `marena_commit` or `marena_dismiss`. */
    predicate IsOpen()
      reads this
    {
      stagingSize != 0
    }

    /** What users can see. */
    function Committed(): string
      requires Valid()
      reads this
    {
      buffer[..dataSize]
    }

    /** What the transaction has gathered. */
    function Pending(): string
      requires Valid() && IsOpen()
      reads this
    {
      buffer[dataSize..stagingSize]
    }

    ghost function StoreNow(): Store
      reads this
    {
      Store(dataSize, stagingSize, |buffer|, failed, asked, canRealloc, kernel)
    }

    /** `marena_new_aux` once its buffer is allocated; `stale` is what the memory holds. */
    constructor (size: nat, canRealloc: bool, stale: string, kernel: nat -> bool)
      requires size > 0 && |stale| == Bits.Align(Bits.Align(size, RESERVED), 128) <= U32_MAX
      ensures Valid() && !IsOpen() && this.canRealloc == canRealloc && this.kernel == kernel && asked == 0
      ensures |buffer| == |stale| >= 128 && Committed() == stale[..16]
    {
      Bits.AlignIsLeastMultiple(size, RESERVED, 0);
      Bits.AlignIsLeastMultiple(Bits.Align(size, RESERVED), 128, 0);
      AtLeastOneUnit(Bits.Align(Bits.Align(size, RESERVED), 128));
      buffer, dataSize, stagingSize, failed := stale, RESERVED, 0, false;
      this.canRealloc, this.kernel, asked := canRealloc, kernel, 0;
    }

    static lemma AtLeastOneUnit(n: nat)
      requires n > 0 && n % 128 == 0
      ensures n >= 128
    {
    }

    static lemma SameSlice(before: string, after: string, a: nat, b: nat)
      requires a <= b <= |before| <= |after| && after[..|before|] == before
      ensures after[a..b] == before[a..b]
    {
      forall i | a <= i < b ensures after[i] == before[i] {
        assert after[..|before|][i] == before[i];
      }
    }

    // -------------------------------------------------------------- room

    /** `marena_grow` and `marena_realloc`.  The kernel may refuse; new memory holds anything. */
    method Grow() returns (ok: bool)
      requires Valid() && canRealloc
      modifies this`buffer, this`asked
      ensures Valid() && |buffer| >= |old(buffer)| && buffer[..|old(buffer)|] == old(buffer)
      ensures ok == (|old(buffer)| != U32_MAX && kernel(old(asked)))
      ensures |buffer| == if ok then GrownSize(|old(buffer)|) else |old(buffer)|
      ensures asked == old(asked) + if |old(buffer)| != U32_MAX then 1 else 0
    {
      GrownSizeIs(|buffer|);
      var newSize := U32_MAX;
      if |buffer| * 2 % (U32_MAX + 1) < |buffer| {
        if newSize == |buffer| {
          return false;
        }
      } else {
        newSize := SinglePrecision.FiveQuarters(|buffer|) + 8 * PAGE;
      }
      ok := Realloc(newSize);
    }

    /** `marena_realloc`. */
    method Realloc(newSize: nat) returns (ok: bool)
      requires Valid() && |buffer| <= newSize <= U32_MAX
      modifies this`buffer, this`asked
      ensures Valid() && |buffer| >= |old(buffer)| && buffer[..|old(buffer)|] == old(buffer)
      ensures ok == kernel(old(asked)) && asked == old(asked) + 1
      ensures |buffer| == if ok then newSize else |old(buffer)|
    {
      ok := kernel(asked);
      asked := asked + 1;
      if ok {
        assert |seq(newSize - |buffer|, _ => '\0')| == newSize - |buffer|;
        var stale: string :| |stale| == newSize - |buffer|;
        buffer := buffer + stale;
      }
    }

    /** `marena_accomodate_for_size`.  It asks for more memory exactly where the test sees no room. */
    method AccommodateForSize(size: nat, v: Variant) returns (ok: bool)
      requires Valid() && IsOpen() && stagingSize + size <= U32_MAX
      modifies this`buffer, this`asked
      ensures Valid() && |buffer| >= |old(buffer)| && buffer[..|old(buffer)|] == old(buffer)
      ensures (ok, |buffer|) ==
        Accommodate(v, dataSize, stagingSize, size, |old(buffer)|, canRealloc, kernel(old(asked)))
      ensures var room := (if v.AsWritten? then dataSize else stagingSize) + size < |old(buffer)|;
        var asks := !room && canRealloc && |old(buffer)| < 0xFFFF_FFFF;
        && asked == old(asked) + (if asks then 1 else 0)
        && |buffer| == (if asks && kernel(old(asked)) then GrownSize(|old(buffer)|) else |old(buffer)|)
        && (ok <==> room || (asks && kernel(old(asked)) && (v.AsWritten? || stagingSize + size <= |buffer|)))
    {
      GrownSizeIs(|buffer|);
      hide GrownSize;
      if !HasRoom(v, dataSize, stagingSize, size, |buffer|) {
        if !canRealloc {
          return false;
        }
        ok := Grow();
        if v.Repaired? {
          ok := ok && stagingSize + size <= |buffer|;  // Repair
        }
      } else {
        ok := true;
      }
    }

    /** `marena_ensure_add_operation_is_possible`. */
    method EnsureAddIsPossible(size: nat) returns (ok: bool)
      requires Valid() && IsOpen()
      modifies this`buffer, this`asked
      ensures Valid() && Committed() == old(Committed()) && Pending() == old(Pending())
      ensures ok ==> !failed && stagingSize + size <= |buffer|
      ensures ok <==> !failed && Takes(dataSize, stagingSize, size, |old(buffer)|, canRealloc, kernel(old(asked)))
      ensures |buffer| >= |old(buffer)| && asked >= old(asked)
      ensures !canRealloc ==> |buffer| == |old(buffer)|
      ensures var t := AddTo(old(StoreNow()), size);
        |buffer| == t.capacity && asked == t.asked && ok == !t.failed
    {
      ok := false;
      if !failed && size <= U32_MAX - stagingSize {
        ghost var before := buffer;
        hide GrownSize;
        ok := AccommodateForSize(size, Repaired);
        SameSlice(before, buffer, 0, dataSize);
        SameSlice(before, buffer, dataSize, stagingSize);
      }
    }

    // -------------------------------------------------------------- transactions

    /** `marena_begin`. */
    method Begin()
      requires Valid() && !IsOpen()
      modifies this`stagingSize
      ensures Valid() && IsOpen() && Committed() == old(Committed()) && Pending() == ""
    {
      stagingSize := dataSize;
    }

    /** `marena_add_data`.  Bytes that do not fit mark the transaction as failed. */
    method AddData(data: string) returns (ok: bool)
      requires Valid() && IsOpen()
      modifies this`buffer, this`asked, this`stagingSize, this`failed
      ensures Valid() && IsOpen() && Committed() == old(Committed())
      ensures failed == (old(failed) || !ok)
      ensures ok ==> !failed
      ensures Pending() == old(Pending()) + if ok then data else ""
      ensures ok <==>
        !old(failed) && Takes(dataSize, old(stagingSize), |data|, |old(buffer)|, canRealloc, kernel(old(asked)))
      ensures stagingSize == old(stagingSize) + (if ok then |data| else 0) && |buffer| >= |old(buffer)|
      ensures !canRealloc ==> |buffer| == |old(buffer)|
      ensures StoreNow() == AddTo(old(StoreNow()), |data|)
    {
      ok := EnsureAddIsPossible(|data|);
      if !ok {
        failed := true;
        return;
      }
      ghost var before, end := buffer, stagingSize;
      buffer := buffer[..stagingSize] + data + buffer[stagingSize + |data|..];
      stagingSize := stagingSize + |data|;
      assert buffer[..dataSize] == before[..dataSize];
      assert buffer[dataSize..stagingSize] == before[dataSize..end] + data;
    }

    /** `marena_add` with zeroed memory. */
    method AddZeros(size: nat) returns (ok: bool)
      requires Valid() && IsOpen()
      modifies this`buffer, this`asked, this`stagingSize, this`failed
      ensures Valid() && IsOpen() && Committed() == old(Committed())
      ensures failed == (old(failed) || !ok)
      ensures ok ==> !failed
      ensures Pending() == old(Pending()) + if ok then seq(size, _ => '\0') else ""
      ensures ok <==>
        !old(failed) && Takes(dataSize, old(stagingSize), size, |old(buffer)|, canRealloc, kernel(old(asked)))
      ensures stagingSize == old(stagingSize) + (if ok then size else 0) && |buffer| >= |old(buffer)|
      ensures StoreNow() == AddTo(old(StoreNow()), size)
    {
      ok := AddData(seq(size, _ => '\0'));
    }

    /** `marena_add_char`. */
    method AddChar(c: char) returns (ok: bool)
      requires Valid() && IsOpen()
      modifies this`buffer, this`asked, this`stagingSize, this`failed
      ensures Valid() && IsOpen() && Committed() == old(Committed())
      ensures failed == (old(failed) || !ok)
      ensures ok ==> !failed
      ensures Pending() == old(Pending()) + if ok then [c] else ""
      ensures ok <==>
        !old(failed) && Takes(dataSize, old(stagingSize), 1, |old(buffer)|, canRealloc, kernel(old(asked)))
      ensures stagingSize == old(stagingSize) + (if ok then 1 else 0) && |buffer| >= |old(buffer)|
      ensures !canRealloc ==> |buffer| == |old(buffer)|
      ensures StoreNow() == AddTo(old(StoreNow()), 1)
    {
      ok := AddData([c]);
    }

    /** `marena_add_cstr` on a string without zero bytes: it may stop half way, but then the transaction
        has failed. */
    method AddCstr(s: string) returns (ok: bool)
      requires Valid() && IsOpen() && '\0' !in s
      modifies this`buffer, this`asked, this`stagingSize, this`failed
      ensures Valid() && IsOpen() && Committed() == old(Committed())
      ensures failed == (old(failed) || !ok)
      ensures ok ==> !failed && Pending() == old(Pending()) + s + "\0"
      ensures !old(failed) && old(stagingSize) + |s| + 1 < |old(buffer)| ==> ok
      ensures !canRealloc ==> (ok <==> !old(failed) && old(stagingSize) + |s| + 1 < |old(buffer)|)
      ensures canRealloc && (forall n :: kernel(n)) && !old(failed) && old(stagingSize) + |s| + 1 < U32_MAX ==> ok
    {
      ok := true;
      var i := 0;
      while i < |s|
        invariant 0 <= i <= |s| && ok
        invariant Valid() && IsOpen() && Committed() == old(Committed())
        invariant i > 0 ==> !failed
        invariant failed == old(failed) && stagingSize == old(stagingSize) + i
        invariant |buffer| >= |old(buffer)| && (!canRealloc ==> |buffer| == |old(buffer)|)
        invariant Pending() == old(Pending()) + s[..i]
      {
        TakesIff(dataSize, stagingSize, 1, |buffer|, canRealloc, kernel(asked));
        if stagingSize + 1 < U32_MAX {
          OneIsTaken(dataSize, stagingSize, |buffer|);
        }
        ok := AddChar(s[i]);
        if !ok {
          return;
        }
        assert s[..i + 1] == s[..i] + [s[i]];
        i := i + 1;
      }
      assert s[..|s|] == s;
      TakesIff(dataSize, stagingSize, 1, |buffer|, canRealloc, kernel(asked));
      if stagingSize + 1 < U32_MAX {
        OneIsTaken(dataSize, stagingSize, |buffer|);
      }
      ok := AddChar('\0');
    }

    /** `marena_dismiss`: nothing happened. */
    method Dismiss()
      requires Valid() && IsOpen()
      modifies this`stagingSize, this`failed
      ensures Valid() && !IsOpen() && Committed() == old(Committed())
    {
      stagingSize, failed := 0, false;
    }

    /** `marena_commit`: all that was gathered, or nothing. */
    method Commit() returns (ref: MRef)
      requires Valid() && IsOpen()
      modifies this`dataSize, this`stagingSize, this`failed
      ensures Valid() && !IsOpen()
      ensures ref == 0 <==> old(failed)
      ensures old(failed) ==> Committed() == old(Committed()) && dataSize == old(dataSize)
      ensures !old(failed) ==> ref == |old(Committed())| && Committed() == old(Committed()) + old(Pending())
      ensures !old(failed) ==> dataSize == old(stagingSize)
    {
      ref := 0;
      if !failed {
        ref := dataSize;
        assert buffer[..stagingSize] == buffer[..dataSize] + buffer[dataSize..stagingSize];
        dataSize := stagingSize;
      }
      Dismiss();
    }

    /** `marena_push_data`. */
    method PushData(data: string) returns (ref: MRef)
      requires Valid() && !IsOpen()
      modifies this
      ensures Valid() && !IsOpen()
      ensures ref == 0 ==> Committed() == old(Committed())
      ensures ref != 0 ==> ref == |old(Committed())| && Committed() == old(Committed()) + data
      ensures ref != 0 <==>
        || old(dataSize) + |data| < |old(buffer)|
        || (canRealloc && kernel(old(asked)) && |old(buffer)| < 0xFFFF_FFFF
             && old(dataSize) + |data| <= GrownSize(|old(buffer)|))
    {
      TakesIff(dataSize, dataSize, |data|, |buffer|, canRealloc, kernel(asked));
      hide GrownSize, Takes;
      Begin();
      var _ := AddData(data);
      ref := Commit();
    }

    /** `marena_push_cstr`. */
    method PushCstr(s: string) returns (ref: MRef)
      requires Valid() && !IsOpen() && '\0' !in s
      modifies this
      ensures Valid() && !IsOpen()
      ensures ref == 0 ==> Committed() == old(Committed())
      ensures ref != 0 ==> ref == |old(Committed())| && Committed() == old(Committed()) + s + "\0"
      ensures old(dataSize) + |s| + 1 < |old(buffer)| ==> ref != 0
      ensures !canRealloc ==> (ref != 0 <==> old(dataSize) + |s| + 1 < |old(buffer)|)
      ensures canRealloc && (forall n :: kernel(n)) && old(dataSize) + |s| + 1 < U32_MAX ==> ref != 0
    {
      Begin();
      var _ := AddCstr(s);
      ref := Commit();
    }

    /** `marena_pop_upto` without its asserts. */
    method PopUpTo(ref: MRef)
      requires Valid() && !IsOpen() && ref >= RESERVED
      modifies this`dataSize
      ensures Valid() && !IsOpen()
      ensures Committed() == if ref < |old(Committed())| then old(Committed())[..ref] else old(Committed())
    {
      if ref < dataSize {
        dataSize := ref;
      }
    }

    /** A write through `marena_unpack_ref__unsafe`. */
    method Poke(ref: MRef, data: string)
      requires Valid() && !IsOpen() && RESERVED <= ref && ref + |data| <= |Committed()|
      modifies this`buffer
      ensures Valid() && !IsOpen()
      ensures Committed() == old(Committed())[..ref] + data + old(Committed())[ref + |data|..]
      ensures |buffer| == |old(buffer)|
    {
      buffer := buffer[..ref] + data + buffer[ref + |data|..];
    }
  }

  /** Popping to the reference of a push undoes it. */
  method PushThenPop(arena: MArena, data: string) returns (ref: MRef)
    requires arena.Valid() && !arena.IsOpen()
    modifies arena
    ensures arena.Valid() && !arena.IsOpen() && arena.Committed() == old(arena.Committed())
  {
    ref := arena.PushData(data);
    if ref != 0 {
      arena.PopUpTo(ref);
    }
  }
}

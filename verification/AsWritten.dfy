/** Whole runs of the MFList allocator exactly as the code stands.

    The free guard lets no legitimate free through, so chunks only ever fill up from the
    bottom.  On such chunks the missing back link assignments are never missed: the code
    passes its own integrity check on every run, and never reuses a byte. */
module AsWritten {
  import opened Blocks
  import opened Options
  import opened Sizing
  import opened Headers
  import opened Variants
  import opened ChunkCode
  import opened Heap

  /** All blocks but the last are live. */
  ghost predicate Stacked(bs: seq<Block>) {
    forall i :: 0 <= i < |bs| - 1 ==> !bs[i].avail
  }

  lemma StackedFitsLast(bs: seq<Block>, n: nat)
    requires Stacked(bs) && FirstFit(bs, n) < |bs|
    ensures FirstFit(bs, n) == |bs| - 1
  {
  }

  lemma ForkStacked(bs: seq<Block>, n: nat, chunkSize: nat, bounded: bool)
    requires Stacked(bs) && FirstFit(bs, n) < |bs|
    ensures Stacked(Fork(bs, FirstFit(bs, n), n, chunkSize, bounded))
  {
  }

  /** Splitting the last block needs no back link mended, so the code as written does the right thing. */
  lemma ForkOnStack(h: Memory, base: nat, bs: seq<Block>, chunkSize: nat, n: nat, bounded: bool)
    requires Spells(h, base, bs, chunkSize) && Stacked(bs)
    requires n > 0 && n % BLOCK_HEADER == 0 && FirstFit(bs, n) < |bs|
    ensures var i := FirstFit(bs, n);
      && Off(base, bs, i) in h && h[Off(base, bs, i)].size >= n
      && Spells(ForkHeaders(h, base, chunkSize, Off(base, bs, i), n, bounded, Variants.AsWritten), base,
                Fork(bs, i, n, chunkSize, bounded), chunkSize)
  {
    var i := FirstFit(bs, n);
    var off, end := Off(base, bs, i), Off(base, bs, i + 1);
    StackedFitsLast(bs, n);
    HeaderAt(h, base, bs, chunkSize, i);
    ForkRefines(h, base, bs, chunkSize, i, n, bounded);
    OffStep(base, bs, i);
    Around(h, base, bs, chunkSize, i);
    if Splits(bs[i], n, chunkSize, bounded) {
      ForkMemory(h, base, chunkSize, off, n, end);
    }
  }

  // ---------------------------------------------------------------- states and steps

  /** The block lists, and by its base address the headers of each chunk and its cached maximum. */
  datatype State = State(heap: Heap, mem: map<nat, Memory>, max: map<nat, nat>)

  datatype Op = Malloc(request: nat, mapping: Option<nat>) | Free(k: nat, c: nat, i: nat)

  const START: State := State(EMPTY, map[], map[])

  ghost predicate InStep(s: State, ch: Chunk) {
    && ch.base in s.mem && ch.base in s.max
    && Spells(s.mem[ch.base], ch.base, ch.blocks, ch.size)
    && Stacked(ch.blocks)
    && s.max[ch.base] == MaxAvail(ch.blocks)
  }

  ghost predicate Inv(s: State) {
    && HeapInv(s.heap)
    && forall k: nat, c: nat :: Has(s.heap, k, c) ==> InStep(s, s.heap.chains[k][c])
  }

  ghost predicate Allowed(s: State, op: Op) {
    match op
    case Malloc(request, mapping) => CanAlloc(s.heap, request, mapping, Variants.AsWritten)
    case Free(k, c, i) => LiveBlock(s.heap, k, c, i)
  }

  datatype Place = Place(k: nat, c: nat, ch: Chunk)

  /** The chunk a successful allocation finds, before it is carved. */
  ghost function Landing(s: Heap, request: nat, mapping: Option<nat>): (p: Place)
    requires HeapInv(s) && CanAlloc(s, request, mapping, Variants.AsWritten)
    requires Alloc(s, request, mapping, Variants.AsWritten).1.Some?
    ensures Lands(s, request, mapping, Variants.AsWritten, p.k, p.c, p.ch)
  {
    LandsSomewhere(s, request, mapping);
    var k: nat, c: nat, ch: Chunk :| Lands(s, request, mapping, Variants.AsWritten, k, c, ch);
    Place(k, c, ch)
  }

  lemma LandsSomewhere(s: Heap, request: nat, mapping: Option<nat>)
    requires HeapInv(s) && CanAlloc(s, request, mapping, Variants.AsWritten)
    requires Alloc(s, request, mapping, Variants.AsWritten).1.Some?
    ensures exists k: nat, c: nat, ch: Chunk :: Lands(s, request, mapping, Variants.AsWritten, k, c, ch)
  {
    hide *;
    var k, c, ch := AllocLands(s, request, mapping, Variants.AsWritten);
  }

  /** Two places of an allocation are the same: it lands in one chunk. */
  lemma LandsOnce(s: Heap, request: nat, mapping: Option<nat>, k: nat, c: nat, ch: Chunk, p: Place)
    requires Lands(s, request, mapping, Variants.AsWritten, k, c, ch)
    requires Lands(s, request, mapping, Variants.AsWritten, p.k, p.c, p.ch)
    ensures p == Place(k, c, ch)
  {
  }

  lemma LandingIsCarvable(s: Heap, request: nat, mapping: Option<nat>)
    requires HeapInv(s) && CanAlloc(s, request, mapping, Variants.AsWritten)
    requires Alloc(s, request, mapping, Variants.AsWritten).1.Some?
    ensures var p := Landing(s, request, mapping);
      && p.k < |s.chains| && p.c <= |s.chains[p.k]| && Carvable(p.ch, p.k, Rounded(request))
      && (p.c < |s.chains[p.k]| ==> p.ch == s.chains[p.k][p.c])
      && FirstFit(p.ch.blocks, Rounded(request)) < |p.ch.blocks|
  {
    var k, c, ch := AllocLands(s, request, mapping, Variants.AsWritten);
    LandsOnce(s, request, mapping, k, c, ch, Landing(s, request, mapping));
  }

  lemma LandsFresh(s: Heap, request: nat, mapping: Option<nat>)
    requires HeapInv(s) && CanAlloc(s, request, mapping, Variants.AsWritten)
    requires Alloc(s, request, mapping, Variants.AsWritten).1.Some?
    requires Landing(s, request, mapping).k < |s.chains|
    requires Landing(s, request, mapping).c == |s.chains[Landing(s, request, mapping).k]|
    ensures var ch := Landing(s, request, mapping).ch;
      ch.size >= CHUNK_HEADER + 2 * BLOCK_HEADER && GoodBase(ch.base) && ch.blocks == InitialBlocks(ch.base, ch.size)
  {
    var p := Landing(s, request, mapping);
    LandingIsCarvable(s, request, mapping);
    OneBlock(p.ch.blocks[0], 0);
  }

  // ---------------------------------------------------------------- what the code looks at

  /** The chunk that the code picks, and its headers; a fresh one is initialised first. */
  datatype Target = Target(k: nat, c: nat, base: nat, size: nat, memory: Memory)

  /** First chunk of a chain whose cached maximum, as stored, admits the size. */
  function PickByMax(chain: seq<Chunk>, max: map<nat, nat>, size: nat): (c: nat)
    ensures c <= |chain|
  {
    if chain == [] || (chain[0].base in max && max[chain[0].base] >= size) then 0
    else 1 + PickByMax(chain[1..], max, size)
  }

  /** What the code picks, from the bases and sizes of chunks, their stored maxima and headers alone. */
  function TargetOf(s: State, request: nat, mapping: Option<nat>): Option<Target> {
    var size := Rounded(request);
    var req := Required(size, Variants.AsWritten);
    if request == 0 || req.categ >= |s.heap.chains| then None
    else
      var chain := s.heap.chains[req.categ];
      var c := PickByMax(chain, s.max, size);
      if c < |chain| && chain[c].base in s.mem then
        Some(Target(req.categ, c, chain[c].base, chain[c].size, s.mem[chain[c].base]))
      else if mapping.None? || req.chunkSize < CHUNK_HEADER + 2 * BLOCK_HEADER then None
      else
        var h := InitHeaders(mapping.value, req.chunkSize, Variants.AsWritten);
        Some(Target(req.categ, c, mapping.value, req.chunkSize, h))
  }

  lemma {:induction false} PickByMaxIs(chain: seq<Chunk>, max: map<nat, nat>, size: nat)
    requires forall ch :: ch in chain ==> ch.base in max && max[ch.base] == MaxAvail(ch.blocks)
    ensures PickByMax(chain, max, size) == PickChunk(chain, size)
  {
    if chain != [] {
      PickByMaxIs(chain[1..], max, size);
    }
  }

  /** The code has picked the chunk at `p`, and its walk over the headers stops at the lowest fitting block. */
  ghost predicate LeadsTo(t: Target, p: Place, size: nat) {
    && t.k == p.k && t.c == p.c && t.base == p.ch.base && t.size == p.ch.size
    && Carvable(p.ch, p.k, size) && FirstFit(p.ch.blocks, size) < |p.ch.blocks|
    && Spells(t.memory, p.ch.base, p.ch.blocks, p.ch.size) && Stacked(p.ch.blocks)
    && var off := Off(p.ch.base, p.ch.blocks, FirstFit(p.ch.blocks, size));
    FitFrom(t.memory, t.size, FirstBlock(t.base), size) == At(off) && off in t.memory && t.memory[off].size >= size
  }

  /** Stored maxima and headers lead to the chunk and the block of the block lists. */
  lemma TargetIs(s: State, request: nat, mapping: Option<nat>)
    requires Inv(s) && CanAlloc(s.heap, request, mapping, Variants.AsWritten)
    ensures TargetOf(s, request, mapping).None? <==> Alloc(s.heap, request, mapping, Variants.AsWritten).1.None?
    ensures TargetOf(s, request, mapping).Some? ==>
      LeadsTo(TargetOf(s, request, mapping).value, Landing(s.heap, request, mapping), Rounded(request))
  {
    var k := Required(Rounded(request), Variants.AsWritten).categ;
    PicksAgree(s, k, Rounded(request));
    AllocOutcome(s.heap, request, mapping, Variants.AsWritten);
    if request > 0 {
      NoneFitsIsNoPick(s.heap, request, Variants.AsWritten);
      RequestServable(request, Variants.AsWritten);
    }
    if Alloc(s.heap, request, mapping, Variants.AsWritten).1.Some? {
      var p := Landing(s.heap, request, mapping);
      LandingIsCarvable(s.heap, request, mapping);
      if p.c < |s.heap.chains[p.k]| {
        assert InStep(s, s.heap.chains[p.k][p.c]);
      } else {
        LandsFresh(s.heap, request, mapping);
        InitSpellsIff(p.ch.base, p.ch.size, Variants.AsWritten);
      }
      WalkLeads(TargetOf(s, request, mapping).value, p, Rounded(request));
    }
  }

  lemma PicksAgree(s: State, k: nat, size: nat)
    requires Inv(s) && k < |s.heap.chains|
    ensures PickByMax(s.heap.chains[k], s.max, size) == PickChunk(s.heap.chains[k], size)
  {
    var chain := s.heap.chains[k];
    forall ch | ch in chain ensures InStep(s, ch) {
      var c :| 0 <= c < |chain| && ch == chain[c];
      assert Has(s.heap, k, c);
    }
    PickByMaxIs(chain, s.max, size);
  }

  lemma WalkLeads(t: Target, p: Place, size: nat)
    requires t.k == p.k && t.c == p.c && t.base == p.ch.base && t.size == p.ch.size
    requires Carvable(p.ch, p.k, size) && FirstFit(p.ch.blocks, size) < |p.ch.blocks|
    requires Spells(t.memory, p.ch.base, p.ch.blocks, p.ch.size) && Stacked(p.ch.blocks)
    ensures LeadsTo(t, p, size)
  {
    FitFromIs(t.memory, p.ch.base, p.ch.blocks, p.ch.size, size);
    ForkOnStack(t.memory, p.ch.base, p.ch.blocks, p.ch.size, size, Bounded(p.k));
  }

  /** One call of the code as it stands: an allocation forks headers without relinking and renews the cached maximum of
      the chunk, and a free of a live block leaves early.  Chunk and block are those that the code picks. */
  ghost function Step(s: State, op: Op): State
    requires Inv(s) && Allowed(s, op)
  {
    match op
    case Malloc(request, mapping) =>
      TargetIs(s, request, mapping);
      (match TargetOf(s, request, mapping)
       case None => s
       case Some(t) =>
         var size, first := Rounded(request), FirstBlock(t.base);
         var off := FitFrom(t.memory, t.size, first, size).off;
         var h' := ForkHeaders(t.memory, t.base, t.size, off, size, Bounded(t.k), Variants.AsWritten);
         State(Alloc(s.heap, request, mapping, Variants.AsWritten).0, s.mem[t.base := h'],
               s.max[t.base := RenewedMax(t.memory, h', t.size, first, off)]))
    case Free(k, c, i) =>
      var ch := s.heap.chains[k][c];
      assert InStep(s, ch);
      HeaderAt(s.mem[ch.base], ch.base, ch.blocks, ch.size, i);
      var off := Off(ch.base, ch.blocks, i);
      s.(mem := s.mem[ch.base := FreeHeaders(s.mem[ch.base], ch.size, off, Variants.AsWritten, Variants.AsWritten)])
  }

  // ---------------------------------------------------------------- what every step keeps

  /** As written, a free of a live block changes nothing at all. */
  lemma FreeDoesNothing(s: State, k: nat, c: nat, i: nat)
    requires Inv(s) && Allowed(s, Free(k, c, i))
    ensures Step(s, Free(k, c, i)) == s
  {
    var ch := s.heap.chains[k][c];
    assert InStep(s, ch);
    FreeTakesEffect(s.mem[ch.base], ch.base, ch.blocks, ch.size, i, Variants.AsWritten, Variants.AsWritten);
    assert s.mem[ch.base := s.mem[ch.base]] == s.mem;
  }

  /** The chunk an allocation lands in is in step afterwards, its cached maximum included. */
  lemma LandedInStep(s: State, request: nat, mapping: Option<nat>)
    requires Inv(s) && CanAlloc(s.heap, request, mapping, Variants.AsWritten)
    requires Alloc(s.heap, request, mapping, Variants.AsWritten).1.Some?
    ensures var p := Landing(s.heap, request, mapping);
      && FirstFit(p.ch.blocks, Rounded(request)) < |p.ch.blocks|
      && InStep(Step(s, Malloc(request, mapping)), Carve(p.ch, Rounded(request)))
  {
    TargetIs(s, request, mapping);
    var p := Landing(s.heap, request, mapping);
    LandedSpells(TargetOf(s, request, mapping).value.memory, p.ch, p.k, Rounded(request));
  }

  lemma LandedSpells(h: Memory, ch: Chunk, k: nat, size: nat)
    requires Carvable(ch, k, size) && Spells(h, ch.base, ch.blocks, ch.size) && Stacked(ch.blocks)
    ensures FirstFit(ch.blocks, size) < |ch.blocks|
    ensures var off := Off(ch.base, ch.blocks, FirstFit(ch.blocks, size));
      && off in h && h[off].size >= size
      && var h' := ForkHeaders(h, ch.base, ch.size, off, size, Bounded(k), Variants.AsWritten);
      && Spells(h', ch.base, Carve(ch, size).blocks, ch.size)
      && RenewedMax(h, h', ch.size, FirstBlock(ch.base), off) == MaxAvail(Carve(ch, size).blocks)
    ensures Stacked(Carve(ch, size).blocks)
  {
    CarveKeeps(ch, k, size);
    ForkOnStack(h, ch.base, ch.blocks, ch.size, size, Bounded(k));
    ForkStacked(ch.blocks, size, ch.size, Bounded(k));
    var i := FirstFit(ch.blocks, size);
    var cs, off := Carve(ch, size).blocks, Off(ch.base, ch.blocks, i);
    var h' := ForkHeaders(h, ch.base, ch.size, off, size, Bounded(k), Variants.AsWritten);
    assert cs[..i] == ch.blocks[..i] && i < |cs|;
    hide Spells, ForkHeaders, RenewedMax, Carvable, Carve, Stacked;
    RenewedMaxIs(h, h', ch.base, ch.blocks, cs, ch.size, i);
  }

  /** Chunks of a sound heap have different bases. */
  lemma BasesDiffer(s: Heap, k: nat, c: nat, k': nat, c': nat)
    requires HeapInv(s) && Has(s, k, c) && Has(s, k', c') && (k, c) != (k', c')
    ensures s.chains[k][c].base != s.chains[k'][c'].base
  {
    hide ChunkInv;
    assert Apart(s.chains[k][c], s.chains[k'][c']);
    SizesPositive(s, k, c);
    SizesPositive(s, k', c');
  }

  lemma SizesPositive(s: Heap, k: nat, c: nat)
    requires HeapInv(s) && Has(s, k, c)
    ensures s.chains[k][c].size > 0
  {
    assert ChunkInv(s.chains[k][c], k);
  }

  /** One chunk of the heap is another one after an allocation, and all others are as they were. */
  lemma OthersStay(s: Heap, request: nat, mapping: Option<nat>, k': nat, c': nat)
    requires HeapInv(s) && CanAlloc(s, request, mapping, Variants.AsWritten)
    requires Alloc(s, request, mapping, Variants.AsWritten).1.Some?
    requires Has(Alloc(s, request, mapping, Variants.AsWritten).0, k', c')
    ensures var p, t := Landing(s, request, mapping), Alloc(s, request, mapping, Variants.AsWritten).0;
      && FirstFit(p.ch.blocks, Rounded(request)) < |p.ch.blocks|
      && Has(t, p.k, p.c) && t.chains[p.k][p.c] == Carve(p.ch, Rounded(request))
      && ((k', c') != (p.k, p.c) ==> Has(s, k', c') && t.chains[k'][c'] == s.chains[k'][c'])
  {
    hide HeapInv, Alloc, CanAlloc, Carvable, Carve, Rounded, FirstFit;
    var k, c, ch := AllocLands(s, request, mapping, Variants.AsWritten);
    LandsOnce(s, request, mapping, k, c, ch, Landing(s, request, mapping));
  }

  /** Headers and stored maximum of one chunk change, and of no other. */
  lemma StepTouches(s: State, request: nat, mapping: Option<nat>)
    requires Inv(s) && CanAlloc(s.heap, request, mapping, Variants.AsWritten)
    ensures var t := Step(s, Malloc(request, mapping));
      if Alloc(s.heap, request, mapping, Variants.AsWritten).1.None? then t == s
      else
        && t.heap == Alloc(s.heap, request, mapping, Variants.AsWritten).0
        && forall b: nat :: b != Landing(s.heap, request, mapping).ch.base ==>
          (b in s.mem ==> b in t.mem && t.mem[b] == s.mem[b]) && (b in s.max ==> b in t.max && t.max[b] == s.max[b])
  {
    TargetIs(s, request, mapping);
    hide Alloc, CanAlloc, ForkHeaders, RenewedMax, FitFrom, TargetOf, Carvable, Spells, Stacked, Inv, Rounded;
  }

  lemma MallocKeeps(s: State, request: nat, mapping: Option<nat>)
    requires Inv(s) && CanAlloc(s.heap, request, mapping, Variants.AsWritten)
    ensures Inv(Step(s, Malloc(request, mapping)))
  {
    hide Step, InStep, HeapInv, Alloc, CanAlloc;
    StepTouches(s, request, mapping);
    if Alloc(s.heap, request, mapping, Variants.AsWritten).1.Some? {
      var t := Step(s, Malloc(request, mapping));
      AllocKeeps(s.heap, request, mapping, Variants.AsWritten);
      forall k: nat, c: nat | Has(t.heap, k, c) ensures InStep(t, t.heap.chains[k][c]) {
        MallocInStep(s, request, mapping, k, c);
      }
    }
  }

  lemma MallocInStep(s: State, request: nat, mapping: Option<nat>, k: nat, c: nat)
    requires Inv(s) && CanAlloc(s.heap, request, mapping, Variants.AsWritten)
    requires Alloc(s.heap, request, mapping, Variants.AsWritten).1.Some?
    requires Has(Step(s, Malloc(request, mapping)).heap, k, c)
    ensures var t := Step(s, Malloc(request, mapping)); InStep(t, t.heap.chains[k][c])
  {
    hide HeapInv, Alloc, Spells, Stacked, CanAlloc, FirstFit, MaxAvail, Lands, Carve, Rounded, Step;
    var t, p := Step(s, Malloc(request, mapping)), Landing(s.heap, request, mapping);
    StepTouches(s, request, mapping);
    AllocKeeps(s.heap, request, mapping, Variants.AsWritten);
    OthersStay(s.heap, request, mapping, k, c);
    LandedInStep(s, request, mapping);
    CarvedBase(p.ch, Rounded(request));
    if (k, c) != (p.k, p.c) {
      BasesDiffer(t.heap, k, c, p.k, p.c);
      assert InStep(s, s.heap.chains[k][c]);
    }
  }

  lemma CarvedBase(ch: Chunk, size: nat)
    requires FirstFit(ch.blocks, size) < |ch.blocks|
    ensures Carve(ch, size).base == ch.base
  {
  }

  lemma StepKeeps(s: State, op: Op)
    requires Inv(s) && Allowed(s, op)
    ensures Inv(Step(s, op))
  {
    match op
    case Malloc(request, mapping) => MallocKeeps(s, request, mapping);
    case Free(k, c, i) => FreeDoesNothing(s, k, c, i);
  }

  // ---------------------------------------------------------------- runs

  ghost predicate Permitted(s: State, ops: seq<Op>)
    requires Inv(s)
    decreases |ops|
  {
    hide *;
    ops == [] || (Allowed(s, ops[0]) && (StepKeeps(s, ops[0]); Permitted(Step(s, ops[0]), ops[1..])))
  }

  ghost function Run(s: State, ops: seq<Op>): State
    requires Inv(s) && Permitted(s, ops)
    decreases |ops|
  {
    hide Inv, Step, Allowed;
    if ops == [] then s else (StepKeeps(s, ops[0]); Run(Step(s, ops[0]), ops[1..]))
  }

  lemma StartIsSound()
    ensures Inv(START)
  {
    assert forall k: nat, c: nat :: !Has(EMPTY, k, c);
  }

  lemma {:induction false} RunKeeps(s: State, ops: seq<Op>)
    requires Inv(s) && Permitted(s, ops)
    ensures Inv(Run(s, ops))
    decreases |ops|
  {
    hide Inv, Step, Allowed;
    if ops != [] {
      StepKeeps(s, ops[0]);
      RunKeeps(Step(s, ops[0]), ops[1..]);
    }
  }

  /** After any run of the code as it stands, every chunk passes its integrity check, with the maximum that the code
      has cached for it. */
  lemma EveryCheckPasses(s: State, ops: seq<Op>, k: nat, c: nat)
    requires Inv(s) && Permitted(s, ops) && Has(Run(s, ops).heap, k, c)
    ensures var t := Run(s, ops);
      var ch := t.heap.chains[k][c];
      ch.base in t.mem && ch.base in t.max && Integrity(t.mem[ch.base], ch.base, ch.size, t.max[ch.base])
  {
    RunKeeps(s, ops);
    var t := Run(s, ops);
    hide Run, Permitted;
    var ch := t.heap.chains[k][c];
    assert InStep(t, ch);
    SpellsPasses(t.mem[ch.base], ch.base, ch.blocks, ch.size);
  }

  /** After any run of the code as it stands, a payload once handed out is still occupied. */
  lemma {:induction false} NothingIsReused(s: State, ops: seq<Op>, p: nat, n: nat)
    requires Inv(s) && Permitted(s, ops) && IsLive(s.heap, p, n)
    ensures IsLive(Run(s, ops).heap, p, n)
    decreases |ops|
  {
    hide Inv, Step, Allowed, IsLive;
    if ops != [] {
      StepKeeps(s, ops[0]);
      StepOccupies(s, ops[0], p, n);
      NothingIsReused(Step(s, ops[0]), ops[1..], p, n);
    }
  }

  lemma StepOccupies(s: State, op: Op, p: nat, n: nat)
    requires Inv(s) && Allowed(s, op) && IsLive(s.heap, p, n)
    ensures IsLive(Step(s, op).heap, p, n)
  {
    match op
    case Malloc(request, mapping) =>
      AllocOccupies(s.heap, request, mapping, p, n);
    case Free(k, c, i) => FreeDoesNothing(s, k, c, i);
  }

  lemma AllocOccupies(s: Heap, request: nat, mapping: Option<nat>, p: nat, n: nat)
    requires HeapInv(s) && CanAlloc(s, request, mapping, Variants.AsWritten) && IsLive(s, p, n)
    ensures IsLive(Alloc(s, request, mapping, Variants.AsWritten).0, p, n)
  {
    hide HeapInv, IsLive, Alloc;
    AllocOutcome(s, request, mapping, Variants.AsWritten);
    if Alloc(s, request, mapping, Variants.AsWritten).1.Some? {
      var addr, served := AllocLive(s, request, mapping, Variants.AsWritten);
    }
  }
}

/** Whole runs of the MFList allocator, with the free guard and the back links repaired. */
module HeapRuns {
  import opened Blocks
  import opened Options
  import opened Sizing
  import opened Variants
  import opened Heap

  // ---------------------------------------------------------------- sums over chunks

  function SizeOf(ch: Chunk): nat { ch.size }

  function LiveSizeOf(ch: Chunk): nat { LiveBytes(ch.blocks) }

  function SumChain(f: Chunk -> nat, chain: seq<Chunk>): nat {
    if chain == [] then 0 else f(chain[0]) + SumChain(f, chain[1..])
  }

  function SumAll(f: Chunk -> nat, chains: seq<seq<Chunk>>): nat {
    if chains == [] then 0 else SumChain(f, chains[0]) + SumAll(f, chains[1..])
  }

  lemma {:induction false} SumChainConcat(f: Chunk -> nat, a: seq<Chunk>, b: seq<Chunk>)
    ensures SumChain(f, a + b) == SumChain(f, a) + SumChain(f, b)
  {
    if a == [] {
      assert a + b == b;
    } else {
      assert (a + b)[1..] == a[1..] + b;
      SumChainConcat(f, a[1..], b);
    }
  }

  lemma SumChainAt(f: Chunk -> nat, chain: seq<Chunk>, c: nat)
    requires c < |chain|
    ensures SumChain(f, chain) == SumChain(f, chain[..c]) + f(chain[c]) + SumChain(f, chain[c + 1..])
  {
    assert chain == chain[..c] + ([chain[c]] + chain[c + 1..]);
    SumChainConcat(f, chain[..c], [chain[c]] + chain[c + 1..]);
    SumChainConcat(f, [chain[c]], chain[c + 1..]);
    assert [chain[c]][1..] == [];
  }

  lemma {:induction false} SumAllSet(f: Chunk -> nat, chains: seq<seq<Chunk>>, k: nat, chain: seq<Chunk>)
    requires k < |chains|
    ensures SumAll(f, chains[k := chain]) + SumChain(f, chains[k]) == SumAll(f, chains) + SumChain(f, chain)
  {
    if k == 0 {
      assert chains[0 := chain][1..] == chains[1..];
    } else {
      assert chains[k := chain][1..] == chains[1..][k - 1 := chain];
      SumAllSet(f, chains[1..], k - 1, chain);
    }
  }

  lemma SumAfterSet(f: Chunk -> nat, s: Heap, k: nat, c: nat, ch: Chunk)
    requires Has(s, k, c)
    ensures SumAll(f, SetChunk(s, k, c, ch).chains) + f(s.chains[k][c]) == SumAll(f, s.chains) + f(ch)
  {
    var chain := s.chains[k];
    SumAllSet(f, s.chains, k, chain[c := ch]);
    SumChainAt(f, chain, c);
    SumChainAt(f, chain[c := ch], c);
    assert chain[c := ch][..c] == chain[..c] && chain[c := ch][c + 1..] == chain[c + 1..];
  }

  lemma SumAfterChain(f: Chunk -> nat, s: Heap, k: nat, ch: Chunk)
    requires k < |s.chains|
    ensures SumAll(f, Chain(s, k, ch).chains) == SumAll(f, s.chains) + f(ch)
  {
    SumAllSet(f, s.chains, k, s.chains[k] + [ch]);
    SumChainConcat(f, s.chains[k], [ch]);
    assert [ch][1..] == [];
  }

  lemma SumAfterDrop(f: Chunk -> nat, s: Heap, k: nat, c: nat)
    requires Has(s, k, c)
    ensures SumAll(f, s.chains[k := s.chains[k][..c] + s.chains[k][c + 1..]]) + f(s.chains[k][c]) == SumAll(f, s.chains)
  {
    var chain := s.chains[k];
    SumAllSet(f, s.chains, k, chain[..c] + chain[c + 1..]);
    SumChainAt(f, chain, c);
    SumChainConcat(f, chain[..c], chain[c + 1..]);
  }

  // ---------------------------------------------------------------- totals over single steps

  /** Bytes mapped are the sizes of the chained chunks; bytes in use exceed the live ones by `lost`. */
  ghost predicate Totals(s: Heap, lost: nat) {
    s.mapped == SumAll(SizeOf, s.chains) && s.used == SumAll(LiveSizeOf, s.chains) + lost
  }

  lemma AllocTotals(s: Heap, request: nat, mapping: Option<nat>, lost: nat)
    requires HeapInv(s) && CanAlloc(s, request, mapping, Repaired) && Totals(s, lost)
    ensures Totals(Alloc(s, request, mapping, Repaired).0, lost)
  {
    hide HeapInv, GoodMapping, Alloc, Carve, Carvable;
    AllocOutcome(s, request, mapping, Repaired);
    if Alloc(s, request, mapping, Repaired).1.Some? {
      var k, c, ch := AllocLands(s, request, mapping, Repaired);
      var size := Rounded(request);
      CarveTotals(ch, k, size);
      if c < |s.chains[k]| {
        SumAfterSet(SizeOf, s, k, c, Carve(ch, size));
        SumAfterSet(LiveSizeOf, s, k, c, Carve(ch, size));
      } else {
        SumAfterChain(SizeOf, s, k, Carve(ch, size));
        SumAfterChain(LiveSizeOf, s, k, Carve(ch, size));
        OneBlock(ch.blocks[0], 0);
      }
    }
  }

  lemma CarveTotals(ch: Chunk, k: nat, size: nat)
    requires Carvable(ch, k, size) && FirstFit(ch.blocks, size) < |ch.blocks|
    ensures var carved := Carve(ch, size);
      && carved.size == ch.size && FirstFit(ch.blocks, size) < |carved.blocks|
      && LiveBytes(carved.blocks) == LiveBytes(ch.blocks) + carved.blocks[FirstFit(ch.blocks, size)].size
  {
    ForkLive(ch.blocks, FirstFit(ch.blocks, size), size, ch.size, Bounded(k), ch.base);
  }

  /** A dedicated chunk is unmapped before the bytes in use are reduced, so its size stays counted. */
  lemma FreeTotals(s: Heap, k: nat, c: nat, i: nat, lost: nat)
    requires HeapInv(s) && LiveBlock(s, k, c, i) && Totals(s, lost)
    ensures Totals(FreeAt(s, k, c, i), lost + if Bounded(k) then 0 else s.chains[k][c].blocks[i].size)
  {
    var ch := s.chains[k][c];
    if Bounded(k) {
      var ch' := ch.(blocks := Release(ch.blocks, i));
      ReleaseLive(ch.blocks, i, ch.base);
      SumAfterSet(SizeOf, s, k, c, ch');
      SumAfterSet(LiveSizeOf, s, k, c, ch');
    } else {
      SumAfterDrop(SizeOf, s, k, c);
      SumAfterDrop(LiveSizeOf, s, k, c);
      OneBlock(ch.blocks[0], 0);
      assert ch.blocks == [ch.blocks[0]];
    }
  }

  // ---------------------------------------------------------------- worlds

  /** The heap, what its clients asked for at each address they hold, and the bytes `used` overcounts. */
  datatype World = World(heap: Heap, asked: map<nat, nat>, lost: nat)

  datatype Op = Malloc(request: nat, mapping: Option<nat>) | Free(addr: nat)

  const START: World := World(EMPTY, map[], 0)

  ghost predicate ServedWell(size: nat, request: nat) {
    && 0 < request <= LargestRequest(Repaired)
    && size >= Rounded(request)
    && size <= Rounded(request) + Slack(Required(Rounded(request), Repaired), Repaired)
  }

  /** The heap's live payloads are exactly the addresses its clients hold, each as big as asked. */
  ghost predicate Serves(w: World) {
    && (forall p :: p in w.asked ==> exists n: nat :: IsLive(w.heap, p, n))
    && (forall p: nat, n: nat :: IsLive(w.heap, p, n) ==> p in w.asked && ServedWell(n, w.asked[p]))
  }

  ghost predicate WorldInv(w: World) {
    HeapInv(w.heap) && Serves(w) && Totals(w.heap, w.lost)
  }

  /** Clients free only what they hold; the kernel maps only memory that is not in use. */
  ghost predicate Allowed(w: World, op: Op) {
    match op
    case Malloc(request, mapping) => CanAlloc(w.heap, request, mapping, Repaired)
    case Free(addr) => addr in w.asked
  }

  datatype Place = Place(k: nat, c: nat, i: nat)

  ghost predicate IsAt(s: Heap, addr: nat, at: Place) {
    LiveBlock(s, at.k, at.c, at.i) && PayloadOf(s.chains[at.k][at.c], at.i) == addr
  }

  lemma LiveIsSomewhere(s: Heap, addr: nat, n: nat)
    requires IsLive(s, addr, n)
    ensures exists at :: IsAt(s, addr, at)
  {
    var k: nat, c: nat :| LiveIn(s, k, c, addr, n);
    var ch := s.chains[k][c];
    var i := LiveIndex(ch.blocks, ch.base + FirstBlock(ch.base), addr);
    assert IsAt(s, addr, Place(k, c, i));
  }

  lemma HeldIsSomewhere(w: World, addr: nat)
    requires Serves(w) && addr in w.asked
    ensures exists at :: IsAt(w.heap, addr, at)
  {
    hide IsAt, IsLive;
    var n: nat :| IsLive(w.heap, addr, n);
    LiveIsSomewhere(w.heap, addr, n);
  }

  /** An address is the payload of at most one live block. */
  lemma PlaceIsUnique(s: Heap, addr: nat, a: Place, b: Place)
    requires HeapInv(s) && IsAt(s, addr, a) && IsAt(s, addr, b)
    ensures a == b
  {
    hide HeapInv;
    var ch := s.chains[a.k][a.c];
    LiveAt(ch.blocks, a.i, ch.base);
    LiveAt(s.chains[b.k][b.c].blocks, b.i, s.chains[b.k][b.c].base);
    LiveInOneChunk(s, a.k, a.c, b.k, b.c, addr, ch.blocks[a.i].size, s.chains[b.k][b.c].blocks[b.i].size);
    if a.i < b.i {
      OffMonotone(ch.base, ch.blocks, a.i, b.i);
    } else if b.i < a.i {
      OffMonotone(ch.base, ch.blocks, b.i, a.i);
    }
  }

  ghost function Locate(w: World, addr: nat): (at: Place)
    requires WorldInv(w) && addr in w.asked
    ensures IsAt(w.heap, addr, at)
  {
    HeldIsSomewhere(w, addr);
    var at :| IsAt(w.heap, addr, at);
    at
  }

  ghost function Step(w: World, op: Op): World
    requires WorldInv(w) && Allowed(w, op)
  {
    match op
    case Malloc(request, mapping) =>
      var (heap, r) := Alloc(w.heap, request, mapping, Repaired);
      if r.None? then w else World(heap, w.asked[r.value := request], w.lost)
    case Free(addr) =>
      var at := Locate(w, addr);
      var size := w.heap.chains[at.k][at.c].blocks[at.i].size;
      World(FreeAt(w.heap, at.k, at.c, at.i), w.asked - {addr}, w.lost + if Bounded(at.k) then 0 else size)
  }

  // ---------------------------------------------------------------- every step keeps the invariant

  lemma {:induction false} MallocServes(w: World, request: nat, mapping: Option<nat>)
    requires WorldInv(w) && CanAlloc(w.heap, request, mapping, Repaired)
    ensures Serves(Step(w, Malloc(request, mapping)))
  {
    hide HeapInv, Alloc, GoodMapping, IsLive, Totals, Rounded, Slack, Required;
    var t := Step(w, Malloc(request, mapping));
    if Alloc(w.heap, request, mapping, Repaired).1.Some? {
      var addr, served := AllocLive(w.heap, request, mapping, Repaired);
      AllocOutcome(w.heap, request, mapping, Repaired);
      assert IsLive(t.heap, addr, served);
      assert ServedWell(served, request);
      forall p | p in t.asked ensures exists n: nat :: IsLive(t.heap, p, n) {
        if p != addr {
          var n: nat :| IsLive(w.heap, p, n);
          assert IsLive(t.heap, p, n);
        }
      }
    }
  }

  lemma FreeServes(w: World, addr: nat)
    requires WorldInv(w) && addr in w.asked
    ensures Serves(Step(w, Free(addr)))
  {
    hide HeapInv, IsLive, Totals, LiveBlock, ServedWell, PayloadOf, FreeAt;
    var t := Step(w, Free(addr));
    var at := Locate(w, addr);
    FreeLive(w.heap, at.k, at.c, at.i);
    forall p | p in t.asked ensures exists n: nat :: IsLive(t.heap, p, n) {
      var n: nat :| IsLive(w.heap, p, n);
      assert IsLive(t.heap, p, n);
    }
  }

  lemma {:induction false} StepKeeps(w: World, op: Op)
    requires WorldInv(w) && Allowed(w, op)
    ensures WorldInv(Step(w, op))
  {
    match op
    case Malloc(request, mapping) =>
      MallocServes(w, request, mapping);
      AllocKeeps(w.heap, request, mapping, Repaired);
      AllocTotals(w.heap, request, mapping, w.lost);
    case Free(addr) =>
      FreeServes(w, addr);
      var at := Locate(w, addr);
      FreeKeeps(w.heap, at.k, at.c, at.i);
      FreeTotals(w.heap, at.k, at.c, at.i, w.lost);
  }

  /** What a step does to what clients hold: an address that nobody held comes with what was asked for, or an address
      goes, and nothing lives there any more. */
  lemma StepHolds(w: World, op: Op)
    requires WorldInv(w) && Allowed(w, op)
    ensures var t := Step(w, op);
      match op
      case Malloc(request, mapping) =>
        var (heap, r) := Alloc(w.heap, request, mapping, Repaired);
        if r.None? then t == w else t.heap == heap && r.value !in w.asked && t.asked == w.asked[r.value := request]
      case Free(addr) => t.asked == w.asked - {addr} && forall n: nat :: !IsLive(t.heap, addr, n)
  {
    match op
    case Malloc(request, mapping) =>
      if Alloc(w.heap, request, mapping, Repaired).1.Some? {
        FreshAddress(w, request, mapping);
      }
    case Free(addr) =>
      var at := Locate(w, addr);
      FreeLive(w.heap, at.k, at.c, at.i);
  }

  // ---------------------------------------------------------------- runs

  ghost predicate Permitted(w: World, ops: seq<Op>)
    requires WorldInv(w)
    decreases |ops|
  {
    hide *;
    ops == [] || (Allowed(w, ops[0]) && (StepKeeps(w, ops[0]); Permitted(Step(w, ops[0]), ops[1..])))
  }

  ghost function Run(w: World, ops: seq<Op>): World
    requires WorldInv(w) && Permitted(w, ops)
    decreases |ops|
  {
    hide WorldInv, Step, Allowed;
    if ops == [] then w else (StepKeeps(w, ops[0]); Run(Step(w, ops[0]), ops[1..]))
  }

  lemma StartIsSound()
    ensures WorldInv(START)
  {
    assert forall k: nat, c: nat :: !Has(EMPTY, k, c);
    assert forall k: nat, c: nat, p: nat, n: nat :: !LiveIn(EMPTY, k, c, p, n);
  }

  lemma {:induction false} RunKeeps(w: World, ops: seq<Op>)
    requires WorldInv(w) && Permitted(w, ops)
    ensures WorldInv(Run(w, ops))
    decreases |ops|
  {
    hide WorldInv, Step, Allowed;
    if ops != [] {
      StepKeeps(w, ops[0]);
      RunKeeps(Step(w, ops[0]), ops[1..]);
    }
  }

  /** A payload that lies inside one of the heap's chunks. */
  ghost predicate InsideChunk(s: Heap, p: nat, n: nat) {
    exists k: nat, c: nat :: HoldsPayload(s, k, c, p, n)
  }

  predicate HoldsPayload(s: Heap, k: nat, c: nat, p: nat, n: nat) {
    Has(s, k, c) && s.chains[k][c].base < p && p + n <= s.chains[k][c].base + s.chains[k][c].size
  }

  /** After any run, what a client holds is memory of its own, as big as it asked for and hardly bigger. */
  lemma {:induction false} RunsServe(ops: seq<Op>, p: nat, q: nat) returns (n: nat, m: nat)
    requires WorldInv(START) && Permitted(START, ops)
    requires p in Run(START, ops).asked && q in Run(START, ops).asked
    ensures var w := Run(START, ops);
      && n >= w.asked[p] + BLOCK_HEADER && m >= w.asked[q] + BLOCK_HEADER
      && n <= Rounded(w.asked[p]) + Slack(Required(Rounded(w.asked[p]), Repaired), Repaired)
      && (p != q ==> p + n <= q || q + m <= p)
    ensures InsideChunk(Run(START, ops).heap, p, n)
  {
    RunKeeps(START, ops);
    var w := Run(START, ops);
    n :| IsLive(w.heap, p, n);
    m :| IsLive(w.heap, q, m);
    LivePayloadsApart(w.heap, p, n, q, m);
    RequestServable(w.asked[p], Repaired);
    RequestServable(w.asked[q], Repaired);
    var k: nat, c: nat :| LiveIn(w.heap, k, c, p, n);
    LiveInBounds(w.heap, k, c, p, n);
    assert HoldsPayload(w.heap, k, c, p, n);
  }

  // ---------------------------------------------------------------- draining

  /** Nobody holds memory of this chunk. */
  ghost predicate Drained(w: World, ch: Chunk) {
    forall p :: p in w.asked ==> p < ch.base || p >= ch.base + ch.size
  }

  lemma DrainedIsEmpty(w: World, k: nat, c: nat)
    requires HeapInv(w.heap) && Serves(w) && Has(w.heap, k, c)
    ensures Drained(w, w.heap.chains[k][c]) <==> ChunkLive(w.heap.chains[k][c]) == map[]
  {
    hide HeapInv, Serves;
    var ch := w.heap.chains[k][c];
    if p :| p in ChunkLive(ch) {
      LiveIsHeldInside(w, k, c, p);
    } else {
      forall p | p in w.asked ensures p < ch.base || p >= ch.base + ch.size {
        HeldOutside(w, k, c, p);
      }
    }
  }

  lemma LiveIsHeldInside(w: World, k: nat, c: nat, p: nat)
    requires HeapInv(w.heap) && Serves(w) && Has(w.heap, k, c) && p in ChunkLive(w.heap.chains[k][c])
    ensures p in w.asked && w.heap.chains[k][c].base <= p < w.heap.chains[k][c].base + w.heap.chains[k][c].size
  {
    hide HeapInv;
    var n := ChunkLive(w.heap.chains[k][c])[p];
    assert LiveIn(w.heap, k, c, p, n);
    assert IsLive(w.heap, p, n);
    LiveInBounds(w.heap, k, c, p, n);
  }

  /** What is held but not live in this chunk lies outside it. */
  lemma HeldOutside(w: World, k: nat, c: nat, p: nat)
    requires HeapInv(w.heap) && Serves(w) && Has(w.heap, k, c)
    requires p in w.asked && p !in ChunkLive(w.heap.chains[k][c])
    ensures p < w.heap.chains[k][c].base || p >= w.heap.chains[k][c].base + w.heap.chains[k][c].size
  {
    hide HeapInv, IsLive, ServedWell;
    var n: nat :| IsLive(w.heap, p, n);
    LiveOutside(w.heap, k, c, p, n);
  }

  lemma LiveOutside(s: Heap, k: nat, c: nat, p: nat, n: nat)
    requires HeapInv(s) && Has(s, k, c) && IsLive(s, p, n) && p !in ChunkLive(s.chains[k][c])
    ensures p < s.chains[k][c].base || p >= s.chains[k][c].base + s.chains[k][c].size
  {
    hide HeapInv;
    var k': nat, c': nat :| LiveIn(s, k', c', p, n);
    LiveInBounds(s, k', c', p, n);
    LiveOutsideOthers(s, k, c, k', c', p, n);
  }

  /** A chunk of a bounded category is as initialised, cached maximum included, exactly if it is drained. */
  lemma DrainedChunkIsFresh(w: World, k: nat, c: nat)
    requires WorldInv(w) && Has(w.heap, k, c) && Bounded(k)
    ensures var ch := w.heap.chains[k][c];
      && ch.size >= FirstBlock(ch.base) + BLOCK_HEADER
      && (Drained(w, ch) <==> ch.blocks == InitialBlocks(ch.base, ch.size))
      && (Drained(w, ch) ==> MaxAvail(ch.blocks) == ch.size - FirstBlock(ch.base) - BLOCK_HEADER)
  {
    var ch := w.heap.chains[k][c];
    hide *;
    ChunkOf(w, k, c);
    DrainedIsEmpty(w, k, c);
    EmptyIsFresh(ch, k);
    InitialMaxAvail(ch.base, ch.size);
  }

  lemma ChunkOf(w: World, k: nat, c: nat)
    requires WorldInv(w) && Has(w.heap, k, c)
    ensures HeapInv(w.heap) && Serves(w) && ChunkInv(w.heap.chains[k][c], k)
  {
  }

  lemma EmptyIsFresh(ch: Chunk, k: nat)
    requires ChunkInv(ch, k) && Bounded(k)
    ensures ch.size >= FirstBlock(ch.base) + BLOCK_HEADER
    ensures ChunkLive(ch) == map[] <==> ch.blocks == InitialBlocks(ch.base, ch.size)
  {
    hide Tiles, NoAdjacentFree, InitialBlocks, Aligned;
    DrainedIsInitial(ch.blocks, ch.size, ch.base);
  }

  function Frees(addrs: seq<nat>): seq<Op> {
    if addrs == [] then [] else [Free(addrs[0])] + Frees(addrs[1..])
  }

  /** Everything held can be freed, in any order. */
  lemma {:induction false} FreeingAll(w: World, addrs: seq<nat>)
    requires WorldInv(w)
    requires forall i, j :: 0 <= i < j < |addrs| ==> addrs[i] != addrs[j]
    requires forall p :: p in w.asked <==> p in addrs
    ensures Permitted(w, Frees(addrs)) && Run(w, Frees(addrs)).asked == map[]
    decreases |addrs|
  {
    hide WorldInv;
    if addrs != [] {
      var op, rest := Free(addrs[0]), addrs[1..];
      assert addrs[0] in w.asked;
      StepKeeps(w, op);
      assert Frees(addrs)[1..] == Frees(rest);
      FreeingAll(Step(w, op), rest);
    }
  }

  lemma NoDedicatedWhenNothingHeld(w: World, k: nat, c: nat)
    requires WorldInv(w) && Has(w.heap, k, c) && w.asked == map[]
    ensures Bounded(k)
  {
    if !Bounded(k) {
      var ch := w.heap.chains[k][c];
      LiveAt(ch.blocks, 0, ch.base);
      assert LiveIn(w.heap, k, c, PayloadOf(ch, 0), ch.blocks[0].size);
      assert IsLive(w.heap, PayloadOf(ch, 0), ch.blocks[0].size);
    }
  }

  /** Freeing all live blocks, after any history and in any order, brings every bounded chunk back to
      the state initialisation makes, and leaves no dedicated chunk. */
  lemma {:induction false} FreeingAllRestores(w: World, addrs: seq<nat>, k: nat, c: nat)
    requires WorldInv(w)
    requires forall i, j :: 0 <= i < j < |addrs| ==> addrs[i] != addrs[j]
    requires forall p :: p in w.asked <==> p in addrs
    requires Permitted(w, Frees(addrs)) && Has(Run(w, Frees(addrs)).heap, k, c)
    ensures var ch := Run(w, Frees(addrs)).heap.chains[k][c];
      Bounded(k) && ch.size >= FirstBlock(ch.base) + BLOCK_HEADER && ch.blocks == InitialBlocks(ch.base, ch.size)
  {
    hide WorldInv, Run, Permitted, Step;
    FreeingAll(w, addrs);
    RunKeeps(w, Frees(addrs));
    var t := Run(w, Frees(addrs));
    NoDedicatedWhenNothingHeld(t, k, c);
    DrainedChunkIsFresh(t, k, c);
  }

  // ---------------------------------------------------------------- alloc and free undo each other

  lemma FreeAtUndoesAlloc(s: Heap, request: nat, mapping: Option<nat>) returns (at: Place)
    requires HeapInv(s) && CanAlloc(s, request, mapping, Repaired) && !NoneFits(s, request, Repaired)
    requires Alloc(s, request, mapping, Repaired).1.Some?
    ensures var (t, r) := Alloc(s, request, mapping, Repaired);
      IsAt(t, r.value, at) && Bounded(at.k) && FreeAt(t, at.k, at.c, at.i) == s
  {
    hide HeapInv, Alloc, Live, Fork, MaxAvail, Rounded;
    var k, c, ch := AllocLands(s, request, mapping, Repaired);
    var size := Rounded(request);
    RequestServable(request, Repaired);
    NoneFitsIsNoPick(s, request, Repaired);
    PickedIsCarvable(s, k, size);
    var i := FirstFit(ch.blocks, size);
    ForkLive(ch.blocks, i, size, ch.size, true, ch.base);
    ReleaseUndoesFork(ch.blocks, i, size, ch.size);
    at := Place(k, c, i);
    SetChunkTwice(s, k, c, Carve(ch, size));
  }

  lemma SetChunkTwice(s: Heap, k: nat, c: nat, ch: Chunk)
    requires Has(s, k, c)
    ensures SetChunk(SetChunk(s, k, c, ch), k, c, s.chains[k][c]) == s
  {
    var t := SetChunk(s, k, c, ch);
    assert t.chains[k][c := s.chains[k][c]] == s.chains[k];
    assert t.chains[k := s.chains[k]] == s.chains;
  }

  /** When a chunk already in its chain serves a request, freeing the result restores the whole heap. */
  lemma {:induction false} FreeUndoesMalloc(w: World, request: nat, mapping: Option<nat>)
    requires WorldInv(w) && CanAlloc(w.heap, request, mapping, Repaired) && !NoneFits(w.heap, request, Repaired)
    requires Alloc(w.heap, request, mapping, Repaired).1.Some?
    ensures var addr := Alloc(w.heap, request, mapping, Repaired).1.value;
      var w1 := Step(w, Malloc(request, mapping));
      WorldInv(w1) && addr in w1.asked && Step(w1, Free(addr)) == w
  {
    hide HeapInv, Alloc, FreeAt, IsAt, Totals, LiveBlock, CanAlloc, NoneFits, Serves;
    AllocOutcome(w.heap, request, mapping, Repaired);
    var addr := Alloc(w.heap, request, mapping, Repaired).1.value;
    var w1 := Step(w, Malloc(request, mapping));
    StepKeeps(w, Malloc(request, mapping));
    var at := FreeAtUndoesAlloc(w.heap, request, mapping);
    PlaceIsUnique(w1.heap, addr, at, Locate(w1, addr));
    FreshAddress(w, request, mapping);
    assert w.asked[addr := request] - {addr} == w.asked;
  }

  lemma FreshAddress(w: World, request: nat, mapping: Option<nat>)
    requires WorldInv(w) && CanAlloc(w.heap, request, mapping, Repaired)
    requires Alloc(w.heap, request, mapping, Repaired).1.Some?
    ensures Alloc(w.heap, request, mapping, Repaired).1.value !in w.asked
  {
    hide HeapInv, Alloc, CanAlloc, IsLive, ServedWell;
    var addr, served := AllocLive(w.heap, request, mapping, Repaired);
  }

  // ---------------------------------------------------------------- accounting

  ghost function LiveTotal(s: Heap): nat {
    SumAll(LiveSizeOf, s.chains)
  }

  ghost predicate FreesDedicated(w: World, op: Op)
    requires WorldInv(w) && Allowed(w, op)
  {
    op.Free? && !Bounded(Locate(w, op.addr).k)
  }

  /** The mapped total is always exact; the user total stays as far off as it was, except that freeing
      a dedicated block puts it off by that block. */
  lemma StepAccounts(w: World, op: Op)
    requires WorldInv(w) && Allowed(w, op)
    ensures var t := Step(w, op);
      && t.heap.mapped == SumAll(SizeOf, t.heap.chains)
      && t.heap.used - LiveTotal(t.heap) >= w.heap.used - LiveTotal(w.heap)
      && (t.heap.used - LiveTotal(t.heap) == w.heap.used - LiveTotal(w.heap) <==> !FreesDedicated(w, op))
  {
    StepKeeps(w, op);
    if op.Free? {
      var at := Locate(w, op.addr);
      var blocks := w.heap.chains[at.k][at.c].blocks;
      assert blocks[at.i] in blocks;
    }
  }

  ghost predicate NeverFreesDedicated(w: World, ops: seq<Op>)
    requires WorldInv(w) && Permitted(w, ops)
    decreases |ops|
  {
    hide WorldInv, Step, Allowed, FreesDedicated;
    ops == [] || (StepKeeps(w, ops[0]); !FreesDedicated(w, ops[0]) && NeverFreesDedicated(Step(w, ops[0]), ops[1..]))
  }

  lemma {:induction false} DriftOverRuns(w: World, ops: seq<Op>)
    requires WorldInv(w) && Permitted(w, ops)
    ensures var t := Run(w, ops);
      && t.heap.used - LiveTotal(t.heap) >= w.heap.used - LiveTotal(w.heap)
      && (t.heap.used - LiveTotal(t.heap) == w.heap.used - LiveTotal(w.heap) <==> NeverFreesDedicated(w, ops))
    decreases |ops|
  {
    hide WorldInv, Step, Allowed, FreesDedicated, LiveTotal;
    if ops != [] {
      StepKeeps(w, ops[0]);
      StepAccounts(w, ops[0]);
      DriftOverRuns(Step(w, ops[0]), ops[1..]);
    }
  }

  /** The user total is the live bytes exactly as long as no dedicated block has been freed. */
  lemma {:induction false} UsedIsExactIff(ops: seq<Op>)
    requires WorldInv(START) && Permitted(START, ops)
    ensures var t := Run(START, ops);
      && t.heap.mapped == SumAll(SizeOf, t.heap.chains)
      && (t.heap.used == LiveTotal(t.heap) <==> NeverFreesDedicated(START, ops))
  {
    RunKeeps(START, ops);
    DriftOverRuns(START, ops);
  }
}

/** The whole MFList allocator as a value: six chains of chunks and two running totals. */
module Heap {
  import opened Blocks
  import opened Headers
  import opened Options
  import opened Sizing
  import opened Variants

  datatype Chunk = Chunk(base: nat, size: nat, categ: nat, blocks: seq<Block>)

  datatype Heap = Heap(chains: seq<seq<Chunk>>, mapped: int, used: int)

  const EMPTY: Heap := Heap([[], [], [], [], [], []], 0, 0)

  // ---------------------------------------------------------------- invariant

  predicate Bounded(categ: nat) {
    categ < DEDICATED
  }

  ghost predicate ChunkInv(ch: Chunk, k: nat) {
    && ch.categ == k < CATEGORIES
    && Tiles(ch.blocks, ch.base, ch.size)
    && Aligned(ch.blocks, ch.base + FirstBlock(ch.base))
    && (Bounded(k) ==> ch.size == CATEG_SIZES[k] && NoAdjacentFree(ch.blocks))
    && (!Bounded(k) ==> |ch.blocks| == 1 && !ch.blocks[0].avail)
  }

  /** The memory of two chunks does not overlap. */
  predicate Apart(a: Chunk, b: Chunk) {
    a.base + a.size <= b.base || b.base + b.size <= a.base
  }

  predicate Has(s: Heap, k: nat, c: nat) {
    k < |s.chains| && c < |s.chains[k]|
  }

  ghost predicate HeapInv(s: Heap) {
    && |s.chains| == CATEGORIES
    && (forall k: nat, c: nat :: Has(s, k, c) ==> ChunkInv(s.chains[k][c], k))
    && ChunksApart(s)
  }

  ghost predicate ChunksApart(s: Heap) {
    forall k: nat, c: nat, k': nat, c': nat :: Has(s, k, c) && Has(s, k', c') && (k, c) != (k', c') ==>
      Apart(s.chains[k][c], s.chains[k'][c'])
  }

  // ---------------------------------------------------------------- live payloads

  function PayloadOf(ch: Chunk, i: nat): nat
    requires i <= |ch.blocks|
  {
    PayloadAt(ch.blocks, i, ch.base)
  }

  function ChunkLive(ch: Chunk): map<nat, nat> {
    Live(ch.blocks, ch.base + FirstBlock(ch.base))
  }

  /** A payload of `size` bytes at `addr` is live somewhere in the heap. */
  ghost predicate IsLive(s: Heap, addr: nat, size: nat) {
    exists k: nat, c: nat :: LiveIn(s, k, c, addr, size)
  }

  predicate LiveIn(s: Heap, k: nat, c: nat, addr: nat, size: nat) {
    && Has(s, k, c)
    && addr in ChunkLive(s.chains[k][c])
    && ChunkLive(s.chains[k][c])[addr] == size
  }

  /** Block `i` of chunk `c` in chain `k` is live. */
  predicate LiveBlock(s: Heap, k: nat, c: nat, i: nat) {
    Has(s, k, c) && i < |s.chains[k][c].blocks| && !s.chains[k][c].blocks[i].avail
  }

  // ---------------------------------------------------------------- allocating

  /** First chunk of a chain whose cached maximum admits the size, or the length of the chain. */
  function PickChunk(chain: seq<Chunk>, size: nat): (c: nat)
    ensures c <= |chain|
    ensures c < |chain| ==> MaxAvail(chain[c].blocks) >= size
    ensures forall j :: 0 <= j < c ==> MaxAvail(chain[j].blocks) < size
  {
    if chain == [] then 0
    else if MaxAvail(chain[0].blocks) >= size then 0
    else 1 + PickChunk(chain[1..], size)
  }

  function FreshChunk(base: nat, req: Requirements): Chunk
    requires req.chunkSize >= FirstBlock(base) + BLOCK_HEADER
  {
    Chunk(base, req.chunkSize, req.categ, InitialBlocks(base, req.chunkSize))
  }

  function SetChunk(s: Heap, k: nat, c: nat, ch: Chunk): Heap
    requires Has(s, k, c)
  {
    s.(chains := s.chains[k := s.chains[k][c := ch]])
  }

  function Carve(ch: Chunk, size: nat): Chunk
    requires FirstFit(ch.blocks, size) < |ch.blocks|
  {
    ch.(blocks := Fork(ch.blocks, FirstFit(ch.blocks, size), size, ch.size, Bounded(ch.categ)))
  }

  /** Serving from chunk `c` of chain `k`, which is known to have room. */
  function Serve(s: Heap, k: nat, c: nat, size: nat): (r: (Heap, nat))
    requires Has(s, k, c) && FirstFit(s.chains[k][c].blocks, size) < |s.chains[k][c].blocks|
  {
    var ch := s.chains[k][c];
    var i := FirstFit(ch.blocks, size);
    var carved := Carve(ch, size);
    (SetChunk(s, k, c, carved).(used := s.used + carved.blocks[i].size), PayloadOf(ch, i))
  }

  /** Mapping a new chunk at the end of chain `k`. */
  function Chain(s: Heap, k: nat, ch: Chunk): Heap
    requires k < |s.chains|
  {
    s.(chains := s.chains[k := s.chains[k] + [ch]], mapped := s.mapped + ch.size)
  }

  /** What the kernel may answer: nothing, or a suitably placed region apart from all others. */
  ghost predicate GoodMapping(s: Heap, base: nat, size: nat) {
    forall k: nat, c: nat :: Has(s, k, c) ==> Apart(s.chains[k][c], Chunk(base, size, 0, []))
  }

  /** As written, also a base where rounding the first block changes nothing, and a request for which no sum wraps. */
  ghost predicate CanAlloc(s: Heap, request: nat, mapping: Option<nat>, v: Variant) {
    && (v.AsWritten? ==> request <= LargestRequest(v) && (mapping.Some? ==> GoodBase(mapping.value)))
    && (request <= LargestRequest(v) && mapping.Some? ==>
      GoodMapping(s, mapping.value, Required(Rounded(request), v).chunkSize))
  }

  /** `mflist_alloc1`; `mapping` is what the kernel would answer if asked for a chunk. */
  ghost function Alloc(s: Heap, request: nat, mapping: Option<nat>, v: Variant): (r: (Heap, Option<nat>))
    requires HeapInv(s) && CanAlloc(s, request, mapping, v)
  {
    if request == 0 || request > LargestRequest(v) then (s, None)  // Repair: requests whose sums wrap are refused
    else
      var size := Rounded(request);
      var req := Required(size, v);
      var c := PickChunk(s.chains[req.categ], size);
      RequestServable(request, v);
      if c < |s.chains[req.categ]| then
        FitIffMaxAvail(s.chains[req.categ][c].blocks, size);
        var (s', addr) := Serve(s, req.categ, c, size);
        (s', Some(addr))
      else if mapping.None? then (s, None)
      else
        var s1 := Chain(s, req.categ, FreshChunk(mapping.value, req));
        var (s', addr) := Serve(s1, req.categ, c, size);
        (s', Some(addr))
  }

  lemma {:induction false} RequestServable(request: nat, v: Variant)
    requires 0 < request <= LargestRequest(v)
    ensures var size := Rounded(request);
      && size >= request + BLOCK_HEADER && size % BLOCK_HEADER == 0
      && Required(size, v).chunkSize >= size + CHUNK_HEADER + BLOCK_HEADER + Reserve(v)
      && (Bounded(Required(size, v).categ) ==> Required(size, v).chunkSize == CATEG_SIZES[Required(size, v).categ])
      && (!Bounded(Required(size, v).categ) ==>
        Required(size, v).chunkSize < size + CHUNK_HEADER + BLOCK_HEADER + Reserve(v) + PAGE)
  {
    RoundedIs(request);
    NeedFits(Rounded(request), v);
  }

  // ---------------------------------------------------------------- freeing

  /** `mflist_free` with its guard turned round: a dedicated chunk goes away whole. */
  function FreeAt(s: Heap, k: nat, c: nat, i: nat): Heap
    requires Has(s, k, c) && i < |s.chains[k][c].blocks|
  {
    var ch := s.chains[k][c];
    if Bounded(k) then
      SetChunk(s, k, c, ch.(blocks := Release(ch.blocks, i))).(used := s.used - ch.blocks[i].size)
    else
      s.(chains := s.chains[k := s.chains[k][..c] + s.chains[k][c + 1..]], mapped := s.mapped - ch.size)
  }

  // ---------------------------------------------------------------- the invariant over single steps

  lemma SetChunkKeeps(s: Heap, k: nat, c: nat, ch: Chunk)
    requires HeapInv(s) && Has(s, k, c) && ChunkInv(ch, k)
    requires ch.base == s.chains[k][c].base && ch.size == s.chains[k][c].size
    ensures HeapInv(SetChunk(s, k, c, ch))
  {
    var t := SetChunk(s, k, c, ch);
    forall k': nat, c': nat | Has(t, k', c')
      ensures Has(s, k', c') && t.chains[k'][c'].base == s.chains[k'][c'].base
      ensures t.chains[k'][c'].size == s.chains[k'][c'].size && ChunkInv(t.chains[k'][c'], k')
    {
    }
  }

  lemma ChainKeeps(s: Heap, k: nat, ch: Chunk)
    requires HeapInv(s) && k < CATEGORIES && ChunkInv(ch, k) && GoodMapping(s, ch.base, ch.size)
    ensures HeapInv(Chain(s, k, ch))
  {
    var t := Chain(s, k, ch);
    forall k': nat, c': nat | Has(t, k', c')
      ensures if k' == k && c' == |s.chains[k]| then t.chains[k'][c'] == ch
              else Has(s, k', c') && t.chains[k'][c'] == s.chains[k'][c']
    {
    }
    assert forall k': nat, c': nat :: Has(s, k', c') ==> Apart(s.chains[k'][c'], Chunk(ch.base, ch.size, 0, []));
  }

  /** A free block of a chunk's own header, and room for the size: what carving needs. */
  ghost predicate Carvable(ch: Chunk, k: nat, size: nat) {
    && ch.categ == k < CATEGORIES
    && Tiles(ch.blocks, ch.base, ch.size) && Aligned(ch.blocks, ch.base + FirstBlock(ch.base))
    && (Bounded(k) ==> ch.size == CATEG_SIZES[k] && NoAdjacentFree(ch.blocks))
    && (!Bounded(k) ==> |ch.blocks| == 1)
    && 0 < size <= MaxAvail(ch.blocks) && size % BLOCK_HEADER == 0
  }

  lemma CarveKeeps(ch: Chunk, k: nat, size: nat)
    requires Carvable(ch, k, size)
    ensures FirstFit(ch.blocks, size) < |ch.blocks|
    ensures ChunkInv(Carve(ch, size), k)
    ensures Carve(ch, size).base == ch.base && Carve(ch, size).size == ch.size
  {
    FitIffMaxAvail(ch.blocks, size);
    ForkKeeps(ch.blocks, FirstFit(ch.blocks, size), size, ch.size, Bounded(k), ch.base);
  }

  lemma FreshIsCarvable(base: nat, size: nat, v: Variant)
    requires size > 0 && size % BLOCK_HEADER == 0
    requires var req := Required(size, v);
      && req.chunkSize >= size + FirstBlock(base) + BLOCK_HEADER
      && (Bounded(req.categ) ==> req.chunkSize == CATEG_SIZES[req.categ])
    ensures Carvable(FreshChunk(base, Required(size, v)), Required(size, v).categ, size)
  {
    var bs := InitialBlocks(base, Required(size, v).chunkSize);
    OneBlock(bs[0], base + FirstBlock(base));
  }

  /** A chunk of the dedicated chain never has room, so it is never picked. */
  lemma PickedIsCarvable(s: Heap, k: nat, size: nat)
    requires HeapInv(s) && k < CATEGORIES && size > 0 && size % BLOCK_HEADER == 0
    requires PickChunk(s.chains[k], size) < |s.chains[k]|
    ensures Bounded(k) && Carvable(s.chains[k][PickChunk(s.chains[k], size)], k, size)
  {
    var c := PickChunk(s.chains[k], size);
    var ch := s.chains[k][c];
    assert Has(s, k, c);
    assert ch.blocks[0] == ch.blocks[0] && (|ch.blocks| == 1 ==> ch.blocks == [ch.blocks[0]]);
    OneBlock(ch.blocks[0], 0);
  }

  /** Where an allocation lands: the chunk it finds there, before and after. */
  ghost predicate Lands(s: Heap, request: nat, mapping: Option<nat>, v: Variant, k: nat, c: nat, ch: Chunk) {
    && 0 < request <= LargestRequest(v)
    && k == Required(Rounded(request), v).categ < |s.chains|
    && c == PickChunk(s.chains[k], Rounded(request))
    && if c < |s.chains[k]| then ch == s.chains[k][c]
       else mapping.Some?
            && Required(Rounded(request), v).chunkSize >= FirstBlock(mapping.value) + BLOCK_HEADER
            && ch == FreshChunk(mapping.value, Required(Rounded(request), v))
  }

  /** No chunk of the category the request belongs to has a large enough free block. */
  ghost predicate NoneFits(s: Heap, request: nat, v: Variant) {
    var k := Required(Rounded(request), v).categ;
    k < |s.chains| && forall c :: 0 <= c < |s.chains[k]| ==>
      forall b :: b in s.chains[k][c].blocks ==> !Fits(b, Rounded(request))
  }

  lemma NoneFitsIsNoPick(s: Heap, request: nat, v: Variant)
    requires HeapInv(s) && 0 < request <= LargestRequest(v)
    ensures var chain := s.chains[Required(Rounded(request), v).categ];
      NoneFits(s, request, v) <==> PickChunk(chain, Rounded(request)) == |chain|
  {
    var size := Rounded(request);
    var chain := s.chains[Required(size, v).categ];
    RequestServable(request, v);
    var c := PickChunk(chain, size);
    if c < |chain| {
      FitIffMaxAvail(chain[c].blocks, size);
      assert chain[c].blocks[FirstFit(chain[c].blocks, size)] in chain[c].blocks;
    } else {
      forall j | 0 <= j < |chain| ensures forall b :: b in chain[j].blocks ==> !Fits(b, size) {
        FitIffMaxAvail(chain[j].blocks, size);
      }
    }
  }

  /** An allocation fails only for the empty request, or when a chunk is needed and mapping fails. */
  lemma AllocOutcome(s: Heap, request: nat, mapping: Option<nat>, v: Variant)
    requires HeapInv(s) && CanAlloc(s, request, mapping, v)
    ensures var (s', r) := Alloc(s, request, mapping, v);
      r.None? <==> (request == 0 || request > LargestRequest(v) || (mapping.None? && NoneFits(s, request, v)))
    ensures Alloc(s, request, mapping, v).1.None? ==> Alloc(s, request, mapping, v).0 == s
  {
    if 0 < request <= LargestRequest(v) {
      NoneFitsIsNoPick(s, request, v);
    }
  }

  /** The shape of a successful allocation: one chunk, old or fresh, is carved. */
  ghost predicate Carves(s: Heap, request: nat, mapping: Option<nat>, v: Variant, k: nat, c: nat, ch: Chunk)
    requires HeapInv(s) && CanAlloc(s, request, mapping, v)
  {
    var (s', r) := Alloc(s, request, mapping, v);
    var size := Rounded(request);
    && k < |s.chains| && c <= |s.chains[k]| && FirstFit(ch.blocks, size) < |ch.blocks|
    && FirstFit(ch.blocks, size) < |Carve(ch, size).blocks|
    && var t := if c < |s.chains[k]| then SetChunk(s, k, c, Carve(ch, size)) else Chain(s, k, Carve(ch, size));
    && s' == t.(used := s.used + Carve(ch, size).blocks[FirstFit(ch.blocks, size)].size)
    && r == Some(PayloadOf(ch, FirstFit(ch.blocks, size)))
    && (c == |s.chains[k]| ==> GoodMapping(s, ch.base, ch.size))
  }

  /** Serving from a chunk that is chained already. */
  lemma LandsInChain(s: Heap, request: nat, mapping: Option<nat>, v: Variant, k: nat, c: nat)
    requires HeapInv(s) && CanAlloc(s, request, mapping, v) && 0 < request <= LargestRequest(v)
    requires k == Required(Rounded(request), v).categ < |s.chains|
    requires c == PickChunk(s.chains[k], Rounded(request)) < |s.chains[k]|
    ensures Bounded(k) && Carvable(s.chains[k][c], k, Rounded(request))
    ensures Carves(s, request, mapping, v, k, c, s.chains[k][c])
  {
    RequestServable(request, v);
    PickedIsCarvable(s, k, Rounded(request));
    CarveKeeps(s.chains[k][c], k, Rounded(request));
    ForkLonger(s.chains[k][c], Rounded(request));
    hide HeapInv, Carvable, Rounded, Required, Carve, FirstFit;
  }

  /** Serving from a fresh chunk. */
  lemma LandsInFresh(s: Heap, request: nat, mapping: Option<nat>, v: Variant, k: nat)
    requires HeapInv(s) && CanAlloc(s, request, mapping, v) && 0 < request <= LargestRequest(v) && mapping.Some?
    requires k == Required(Rounded(request), v).categ < |s.chains|
    requires PickChunk(s.chains[k], Rounded(request)) == |s.chains[k]|
    ensures Required(Rounded(request), v).chunkSize >= FirstBlock(mapping.value) + BLOCK_HEADER
    ensures var ch := FreshChunk(mapping.value, Required(Rounded(request), v));
      Carvable(ch, k, Rounded(request)) && Carves(s, request, mapping, v, k, |s.chains[k]|, ch)
  {
    hide HeapInv, Carvable, Rounded, Required, Carve, FirstFit, FirstBlock;
    var size := Rounded(request);
    RequestServable(request, v);
    FreshIsCarvable(mapping.value, size, v);
    var ch := FreshChunk(mapping.value, Required(size, v));
    CarveKeeps(ch, k, size);
    ForkLonger(ch, size);
    SetAtEnd(s.chains[k], ch, Carve(ch, size));
  }

  lemma SetAtEnd(chain: seq<Chunk>, ch: Chunk, x: Chunk)
    ensures (chain + [ch])[|chain| := x] == chain + [x]
  {
  }

  lemma ForkLonger(ch: Chunk, size: nat)
    requires FirstFit(ch.blocks, size) < |ch.blocks|
    ensures FirstFit(ch.blocks, size) < |Carve(ch, size).blocks|
  {
  }

  lemma AllocLands(s: Heap, request: nat, mapping: Option<nat>, v: Variant) returns (k: nat, c: nat, ch: Chunk)
    requires HeapInv(s) && CanAlloc(s, request, mapping, v) && Alloc(s, request, mapping, v).1.Some?
    ensures Lands(s, request, mapping, v, k, c, ch) && Carvable(ch, k, Rounded(request))
    ensures c < |s.chains[k]| ==> Bounded(k)
    ensures Carves(s, request, mapping, v, k, c, ch)
  {
    AllocOutcome(s, request, mapping, v);
    SoundHasSixChains(s);
    NoneFitsIsNoPick(s, request, v);
    hide HeapInv, Alloc, Carves, Carvable, Rounded, CanAlloc;
    k := Required(Rounded(request), v).categ;
    c := PickChunk(s.chains[k], Rounded(request));
    if c < |s.chains[k]| {
      ch := s.chains[k][c];
      LandsInChain(s, request, mapping, v, k, c);
    } else {
      LandsInFresh(s, request, mapping, v, k);
      ch := FreshChunk(mapping.value, Required(Rounded(request), v));
    }
  }

  lemma {:induction false} AllocKeeps(s: Heap, request: nat, mapping: Option<nat>, v: Variant)
    requires HeapInv(s) && CanAlloc(s, request, mapping, v)
    ensures HeapInv(Alloc(s, request, mapping, v).0)
  {
    hide HeapInv, ChunkInv, GoodMapping, Alloc, Carve, Carvable, Rounded;
    AllocOutcome(s, request, mapping, v);
    if Alloc(s, request, mapping, v).1.Some? {
      var k, c, ch := AllocLands(s, request, mapping, v);
      var carved := Carve(ch, Rounded(request));
      CarveKeeps(ch, k, Rounded(request));
      if c < |s.chains[k]| {
        SetChunkKeeps(s, k, c, carved);
        ChainsDecide(SetChunk(s, k, c, carved), Alloc(s, request, mapping, v).0);
      } else {
        SoundHasSixChains(s);
        ChainKeeps(s, k, carved);
        ChainsDecide(Chain(s, k, carved), Alloc(s, request, mapping, v).0);
      }
    }
  }

  lemma ChainsDecide(s: Heap, t: Heap)
    requires HeapInv(s) && t.chains == s.chains
    ensures HeapInv(t)
  {
  }

  lemma SoundHasSixChains(s: Heap)
    requires HeapInv(s)
    ensures |s.chains| == CATEGORIES
  {
  }

  lemma FreeKeeps(s: Heap, k: nat, c: nat, i: nat)
    requires HeapInv(s) && LiveBlock(s, k, c, i)
    ensures HeapInv(FreeAt(s, k, c, i))
  {
    var ch := s.chains[k][c];
    if Bounded(k) {
      ReleaseKeeps(ch.blocks, i, ch.size, ch.base);
      ReleaseSeparates(ch.blocks, i);
      SetChunkKeeps(s, k, c, ch.(blocks := Release(ch.blocks, i)));
    } else {
      DropKeeps(s, k, c, FreeAt(s, k, c, i));
    }
  }

  /** Taking a chunk out of a chain leaves the others as they were. */
  lemma DropKeeps(s: Heap, k: nat, c: nat, t: Heap)
    requires HeapInv(s) && Has(s, k, c)
    requires t.chains == s.chains[k := s.chains[k][..c] + s.chains[k][c + 1..]]
    ensures HeapInv(t)
  {
    forall k': nat, c': nat | Has(t, k', c')
      ensures ChunkInv(t.chains[k'][c'], k')
    {
      DropLookup(s, k, c, t, k', c');
    }
    forall k1: nat, c1: nat, k2: nat, c2: nat | Has(t, k1, c1) && Has(t, k2, c2) && (k1, c1) != (k2, c2)
      ensures Apart(t.chains[k1][c1], t.chains[k2][c2])
    {
      DropLookup(s, k, c, t, k1, c1);
      DropLookup(s, k, c, t, k2, c2);
    }
  }

  lemma DropLookup(s: Heap, k: nat, c: nat, t: Heap, k': nat, c': nat)
    requires Has(s, k, c) && Has(t, k', c')
    requires t.chains == s.chains[k := s.chains[k][..c] + s.chains[k][c + 1..]]
    ensures Has(s, k', Undropped(k, c, k', c')) && t.chains[k'][c'] == s.chains[k'][Undropped(k, c, k', c')]
    ensures (k', Undropped(k, c, k', c')) != (k, c)
  {
  }

  /** Where chunk `c'` of chain `k'` was before chunk `c` of chain `k` was taken out. */
  function Undropped(k: nat, c: nat, k': nat, c': nat): nat {
    if k' == k && c' >= c then c' + 1 else c'
  }

  // ---------------------------------------------------------------- what single steps do to payloads

  /** A live payload is not empty and lies inside its chunk. */
  lemma LiveInBounds(s: Heap, k: nat, c: nat, p: nat, n: nat)
    requires HeapInv(s) && LiveIn(s, k, c, p, n)
    ensures n > 0 && s.chains[k][c].base < p && p + n <= s.chains[k][c].base + s.chains[k][c].size
  {
    var ch := s.chains[k][c];
    LiveBounds(ch.blocks, ch.base + FirstBlock(ch.base));
    var i := LiveIndex(ch.blocks, ch.base + FirstBlock(ch.base), p);
    assert ch.blocks[i] in ch.blocks;
  }

  /** A payload of one chunk lies outside every other. */
  lemma LiveOutsideOthers(s: Heap, k: nat, c: nat, k': nat, c': nat, p: nat, n: nat)
    requires HeapInv(s) && Has(s, k, c) && LiveIn(s, k', c', p, n) && (k, c) != (k', c')
    ensures p + n <= s.chains[k][c].base || p >= s.chains[k][c].base + s.chains[k][c].size
  {
    hide ChunkInv;
    LiveInBounds(s, k', c', p, n);
    assert Apart(s.chains[k][c], s.chains[k'][c']);
  }

  /** No two live payloads of a sound heap overlap, in one chunk or in two. */
  lemma LivePayloadsApart(s: Heap, p: nat, n: nat, q: nat, m: nat)
    requires HeapInv(s) && IsLive(s, p, n) && IsLive(s, q, m)
    ensures if p == q then n == m else p + n <= q || q + m <= p
  {
    hide HeapInv;
    var k: nat, c: nat :| LiveIn(s, k, c, p, n);
    var k': nat, c': nat :| LiveIn(s, k', c', q, m);
    if (k, c) == (k', c') {
      LiveSeparated(s.chains[k][c].blocks, s.chains[k][c].base + FirstBlock(s.chains[k][c].base));
    } else {
      LiveInBounds(s, k, c, p, n);
      LiveInBounds(s, k', c', q, m);
      LiveOutsideOthers(s, k, c, k', c', q, m);
    }
  }

  /** A payload is live after a chunk was replaced exactly if it was live elsewhere, or is live in the new chunk. */
  lemma LiveAfterSet(s: Heap, k: nat, c: nat, ch: Chunk, p: nat, n: nat)
    requires Has(s, k, c)
    ensures IsLive(SetChunk(s, k, c, ch), p, n) <==>
      (p in ChunkLive(ch) && ChunkLive(ch)[p] == n) || LiveElsewhere(s, k, c, p, n)
  {
    var t := SetChunk(s, k, c, ch);
    if p in ChunkLive(ch) && ChunkLive(ch)[p] == n {
      assert LiveIn(t, k, c, p, n);
    } else if LiveElsewhere(s, k, c, p, n) {
      var k': nat, c': nat :| LiveIn(s, k', c', p, n) && (k', c') != (k, c);
      assert LiveIn(t, k', c', p, n);
    }
    if IsLive(t, p, n) {
      var k': nat, c': nat :| LiveIn(t, k', c', p, n);
      assert (k', c') != (k, c) ==> LiveIn(s, k', c', p, n);
    }
  }

  ghost predicate LiveElsewhere(s: Heap, k: nat, c: nat, p: nat, n: nat) {
    exists k': nat, c': nat :: LiveIn(s, k', c', p, n) && (k', c') != (k, c)
  }

  lemma LiveHereOrElsewhere(s: Heap, k: nat, c: nat, p: nat, n: nat)
    requires Has(s, k, c)
    ensures IsLive(s, p, n) <==> LiveIn(s, k, c, p, n) || LiveElsewhere(s, k, c, p, n)
  {
  }

  lemma LiveAfterChain(s: Heap, k: nat, ch: Chunk, p: nat, n: nat)
    requires k < |s.chains|
    ensures IsLive(Chain(s, k, ch), p, n) <==> (p in ChunkLive(ch) && ChunkLive(ch)[p] == n) || IsLive(s, p, n)
  {
    var t := Chain(s, k, ch);
    if p in ChunkLive(ch) && ChunkLive(ch)[p] == n {
      assert LiveIn(t, k, |s.chains[k]|, p, n);
    } else if IsLive(s, p, n) {
      var k': nat, c': nat :| LiveIn(s, k', c', p, n);
      assert LiveIn(t, k', c', p, n);
    }
    if IsLive(t, p, n) {
      var k': nat, c': nat :| LiveIn(t, k', c', p, n);
      assert (k', c') != (k, |s.chains[k]|) ==> LiveIn(s, k', c', p, n);
    }
  }

  lemma LiveAfterDrop(s: Heap, k: nat, c: nat, t: Heap, p: nat, n: nat)
    requires Has(s, k, c)
    requires t.chains == s.chains[k := s.chains[k][..c] + s.chains[k][c + 1..]]
    ensures IsLive(t, p, n) <==> LiveElsewhere(s, k, c, p, n)
  {
    if IsLive(t, p, n) {
      var k': nat, c': nat :| LiveIn(t, k', c', p, n);
      DropLookup(s, k, c, t, k', c');
      assert LiveIn(s, k', Undropped(k, c, k', c'), p, n);
    }
    if LiveElsewhere(s, k, c, p, n) {
      var k': nat, c': nat :| LiveIn(s, k', c', p, n) && (k', c') != (k, c);
      assert LiveIn(t, k', if k' == k && c' > c then c' - 1 else c', p, n);
    }
  }

  /** Carving adds one payload of the chunk, at least as big as asked and hardly bigger. */
  lemma CarveLive(ch: Chunk, k: nat, size: nat) returns (served: nat)
    requires Carvable(ch, k, size) && FirstFit(ch.blocks, size) < |ch.blocks|
    ensures served >= size
    ensures Bounded(k) ==> served <= size + ch.size / 10
    ensures !Bounded(k) ==> served == ch.size - FirstBlock(ch.base) - BLOCK_HEADER
    ensures var i := FirstFit(ch.blocks, size);
      && i < |Carve(ch, size).blocks| && Carve(ch, size).blocks[i].size == served
      && PayloadOf(ch, i) !in ChunkLive(ch)
      && ChunkLive(Carve(ch, size)) == ChunkLive(ch)[PayloadOf(ch, i) := served]
  {
    var i := FirstFit(ch.blocks, size);
    ForkLive(ch.blocks, i, size, ch.size, Bounded(k), ch.base);
    served := Carve(ch, size).blocks[i].size;
    if Bounded(k) {
      ForkSlack(ch.blocks, i, size, ch.size);
    } else {
      OneBlock(ch.blocks[0], 0);
      assert ch.blocks == [ch.blocks[0]];
    }
  }

  /** From `s` to `t` one payload has come, at an address where none was, and none has gone or moved. */
  ghost predicate Added(s: Heap, t: Heap, addr: nat, size: nat) {
    && (forall n: nat :: !IsLive(s, addr, n))
    && forall p: nat, n: nat :: IsLive(t, p, n) <==> IsLive(s, p, n) || (p == addr && n == size)
  }

  /** From `s` to `t` the payload at `addr` has gone, and none has come or moved. */
  ghost predicate Removed(s: Heap, t: Heap, addr: nat) {
    forall p: nat, n: nat :: IsLive(t, p, n) <==> IsLive(s, p, n) && p != addr
  }

  lemma LiveInOneChunk(s: Heap, k: nat, c: nat, k': nat, c': nat, p: nat, n: nat, m: nat)
    requires HeapInv(s) && LiveIn(s, k, c, p, n) && LiveIn(s, k', c', p, m)
    ensures k == k' && c == c' && n == m
  {
    LiveInBounds(s, k, c, p, n);
    LiveInBounds(s, k', c', p, m);
    assert (k, c) == (k', c') || Apart(s.chains[k][c], s.chains[k'][c']);
  }

  lemma SetAdds(s: Heap, t: Heap, k: nat, c: nat, ch: Chunk, addr: nat, size: nat)
    requires HeapInv(s) && HeapInv(t) && Has(s, k, c) && t.chains == SetChunk(s, k, c, ch).chains
    requires addr !in ChunkLive(s.chains[k][c])
    requires ChunkLive(ch) == ChunkLive(s.chains[k][c])[addr := size]
    ensures Added(s, t, addr, size)
  {
    assert LiveIn(t, k, c, addr, size);
    forall n: nat ensures !IsLive(s, addr, n) {
      if IsLive(s, addr, n) {
        var k': nat, c': nat :| LiveIn(s, k', c', addr, n);
        assert LiveIn(t, k', c', addr, n);
        LiveInOneChunk(t, k, c, k', c', addr, size, n);
      }
    }
    forall p: nat, n: nat ensures IsLive(t, p, n) <==> IsLive(s, p, n) || (p == addr && n == size) {
      SameChainsSameLive(t, SetChunk(s, k, c, ch), p, n);
      LiveAfterSet(s, k, c, ch, p, n);
      LiveHereOrElsewhere(s, k, c, p, n);
    }
  }

  lemma SameChainsSameLive(s: Heap, t: Heap, p: nat, n: nat)
    requires s.chains == t.chains
    ensures IsLive(s, p, n) <==> IsLive(t, p, n)
  {
    if IsLive(s, p, n) {
      var k: nat, c: nat :| LiveIn(s, k, c, p, n);
      assert LiveIn(t, k, c, p, n);
    }
    if IsLive(t, p, n) {
      var k: nat, c: nat :| LiveIn(t, k, c, p, n);
      assert LiveIn(s, k, c, p, n);
    }
  }

  lemma ChainAdds(s: Heap, t: Heap, k: nat, ch: Chunk, addr: nat, size: nat)
    requires HeapInv(s) && HeapInv(t) && k < |s.chains| && t.chains == Chain(s, k, ch).chains
    requires ChunkLive(ch) == map[addr := size]
    ensures Added(s, t, addr, size)
  {
    assert addr in ChunkLive(ch);
    assert LiveIn(t, k, |s.chains[k]|, addr, size);
    forall n: nat ensures !IsLive(s, addr, n) {
      if IsLive(s, addr, n) {
        var k': nat, c': nat :| LiveIn(s, k', c', addr, n);
        assert LiveIn(t, k', c', addr, n);
        LiveInOneChunk(t, k, |s.chains[k]|, k', c', addr, size, n);
      }
    }
    forall p: nat, n: nat ensures IsLive(t, p, n) <==> IsLive(s, p, n) || (p == addr && n == size) {
      SameChainsSameLive(t, Chain(s, k, ch), p, n);
      LiveAfterChain(s, k, ch, p, n);
    }
  }

  /** An allocation adds one payload, at least as big as asked and hardly bigger, and moves none. */
  lemma AllocLive(s: Heap, request: nat, mapping: Option<nat>, v: Variant) returns (addr: nat, served: nat)
    requires HeapInv(s) && CanAlloc(s, request, mapping, v) && Alloc(s, request, mapping, v).1.Some?
    ensures Alloc(s, request, mapping, v).1 == Some(addr)
    ensures served >= Rounded(request) >= request + BLOCK_HEADER
    ensures served <= Rounded(request) + Slack(Required(Rounded(request), v), v)
    ensures Added(s, Alloc(s, request, mapping, v).0, addr, served)
  {
    hide HeapInv, GoodMapping, Alloc, Added, Rounded, Required, Carve;
    SoundHasSixChains(s);
    AllocOutcome(s, request, mapping, v);
    var k, c, ch := AllocLands(s, request, mapping, v);
    var size := Rounded(request);
    RequestServable(request, v);
    AllocKeeps(s, request, mapping, v);
    served := CarveLive(ch, k, size);
    addr := PayloadOf(ch, FirstFit(ch.blocks, size));
    assert Bounded(k) ==> ch.size == CATEG_SIZES[k];
    if c < |s.chains[k]| {
      SetAdds(s, Alloc(s, request, mapping, v).0, k, c, Carve(ch, size), addr, served);
    } else {
      OneBlock(ch.blocks[0], ch.base + FirstBlock(ch.base));
      ChainAdds(s, Alloc(s, request, mapping, v).0, k, Carve(ch, size), addr, served);
    }
  }

  /** How much bigger than the rounded request a block may come out. */
  function Slack(req: Requirements, v: Variant): nat {
    if Bounded(req.categ) then req.chunkSize / 10 else Reserve(v) + PAGE - 1
  }

  lemma SetRemoves(s: Heap, t: Heap, k: nat, c: nat, ch: Chunk, addr: nat)
    requires HeapInv(s) && Has(s, k, c) && t.chains == SetChunk(s, k, c, ch).chains
    requires addr in ChunkLive(s.chains[k][c])
    requires ChunkLive(ch) == ChunkLive(s.chains[k][c]) - {addr}
    ensures Removed(s, t, addr)
  {
    forall p: nat, n: nat ensures IsLive(t, p, n) <==> IsLive(s, p, n) && p != addr {
      NotElsewhere(s, k, c, addr, n);
      SameChainsSameLive(t, SetChunk(s, k, c, ch), p, n);
      LiveAfterSet(s, k, c, ch, p, n);
      LiveHereOrElsewhere(s, k, c, p, n);
    }
  }

  lemma NotElsewhere(s: Heap, k: nat, c: nat, p: nat, n: nat)
    requires HeapInv(s) && Has(s, k, c) && p in ChunkLive(s.chains[k][c])
    ensures !LiveElsewhere(s, k, c, p, n)
  {
    assert LiveIn(s, k, c, p, ChunkLive(s.chains[k][c])[p]);
    forall k': nat, c': nat | LiveIn(s, k', c', p, n) ensures k' == k && c' == c {
      LiveInOneChunk(s, k, c, k', c', p, ChunkLive(s.chains[k][c])[p], n);
    }
  }

  lemma DropRemoves(s: Heap, t: Heap, k: nat, c: nat, addr: nat, size: nat)
    requires HeapInv(s) && Has(s, k, c)
    requires t.chains == s.chains[k := s.chains[k][..c] + s.chains[k][c + 1..]]
    requires ChunkLive(s.chains[k][c]) == map[addr := size]
    ensures Removed(s, t, addr)
  {
    assert addr in ChunkLive(s.chains[k][c]);
    forall p: nat, n: nat ensures IsLive(t, p, n) <==> IsLive(s, p, n) && p != addr {
      NotElsewhere(s, k, c, addr, n);
      LiveHereOrElsewhere(s, k, c, p, n);
      LiveAfterDrop(s, k, c, t, p, n);
    }
  }

  /** Freeing removes one payload and moves none. */
  lemma FreeLive(s: Heap, k: nat, c: nat, i: nat)
    requires HeapInv(s) && LiveBlock(s, k, c, i)
    ensures IsLive(s, PayloadOf(s.chains[k][c], i), s.chains[k][c].blocks[i].size)
    ensures Removed(s, FreeAt(s, k, c, i), PayloadOf(s.chains[k][c], i))
  {
    var ch := s.chains[k][c];
    var addr := PayloadOf(ch, i);
    assert ChunkInv(ch, k);
    hide HeapInv, Removed, Release;
    LiveAt(ch.blocks, i, ch.base);
    assert LiveIn(s, k, c, addr, ch.blocks[i].size);
    if Bounded(k) {
      ReleaseLive(ch.blocks, i, ch.base);
      SetRemoves(s, FreeAt(s, k, c, i), k, c, ch.(blocks := Release(ch.blocks, i)), addr);
    } else {
      OneBlock(ch.blocks[0], ch.base + FirstBlock(ch.base));
      assert ch.blocks == [ch.blocks[0]];
      DropRemoves(s, FreeAt(s, k, c, i), k, c, addr, ch.blocks[0].size);
    }
  }
}

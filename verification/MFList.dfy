/** The MFList allocator as objects: chains of chunks linked both ways, heads in an array. */
module MFList {
  import opened Blocks
  import opened Options
  import opened Headers
  import opened Variants
  import opened Sizing
  import opened Heap
  import opened MFListChunk

  /** A payload address: a chunk and an offset into it. */
  datatype Pointer = Pointer(chunk: ChunkObj, payload: nat)

  /** The first `n` bytes of a payload are zero. */
  ghost predicate Zeroed(p: Pointer, n: nat)
    reads p.chunk.bytes
  {
    p.payload + n <= p.chunk.bytes.Length && forall a :: p.payload <= a < p.payload + n ==> p.chunk.bytes[a] == 0
  }

  function AddressOf(p: Option<Pointer>): Option<nat> {
    if p.None? then None else Some(p.value.chunk.base + p.value.payload)
  }

  // ---------------------------------------------------------------- one chain

  ghost function PrevIn(chain: seq<ChunkObj>, c: nat): ChunkObj?
    requires c < |chain|
  {
    if c == 0 then null else chain[c - 1]
  }

  ghost function NextIn(chain: seq<ChunkObj>, c: nat): ChunkObj?
    requires c < |chain|
  {
    if c + 1 < |chain| then chain[c + 1] else null
  }

  ghost predicate Linked(chain: seq<ChunkObj>, head: ChunkObj?)
    reads chain`prevChunk, chain`nextChunk
  {
    && head == (if chain == [] then null else chain[0])
    && forall c :: 0 <= c < |chain| ==>
         chain[c].prevChunk == PrevIn(chain, c) && chain[c].nextChunk == NextIn(chain, c)
  }

  predicate HasObj(chains: seq<seq<ChunkObj>>, k: nat, c: nat) {
    k < |chains| && c < |chains[k]|
  }

  /** The chains without chunk `c` of chain `k`. */
  function Without(chains: seq<seq<ChunkObj>>, k: nat, c: nat): seq<seq<ChunkObj>>
    requires HasObj(chains, k, c)
  {
    chains[k := chains[k][..c] + chains[k][c + 1..]]
  }

  /** No chunk object and no buffer is in two places. */
  ghost predicate AllDistinct(chains: seq<seq<ChunkObj>>) {
    forall k: nat, c: nat, k': nat, c': nat :: HasObj(chains, k, c) && HasObj(chains, k', c') && (k, c) != (k', c') ==>
      chains[k][c] != chains[k'][c'] && chains[k][c].bytes != chains[k'][c'].bytes
  }

  ghost predicate Distinct(chain: seq<ChunkObj>) {
    forall c, d :: 0 <= c < d < |chain| ==> chain[c] != chain[d] && chain[c].bytes != chain[d].bytes
  }

  lemma OtherChain(chains: seq<seq<ChunkObj>>, j: nat, k: nat)
    requires AllDistinct(chains) && j < |chains| && k < |chains| && j != k
    ensures forall c :: 0 <= c < |chains[j]| ==> chains[j][c] !in chains[k]
  {
  }

  // ---------------------------------------------------------------- unlinking

  /** `mflist__del_chained_chunk` on the links of one chain.  As written the chunk after the deleted one
      keeps pointing back at it, so the chain stays sound exactly if there is no such chunk. */
  method Unlink(heads: array<ChunkObj?>, ch: ChunkObj, links: Variant, ghost chain: seq<ChunkObj>, ghost c: nat)
    requires c < |chain| && ch == chain[c] && Distinct(chain)
    requires ch.categ < heads.Length && Linked(chain, heads[ch.categ])
    modifies heads, chain`prevChunk, chain`nextChunk
    ensures forall k :: 0 <= k < heads.Length && k != ch.categ ==> heads[k] == old(heads[k])
    ensures Linked(chain[..c] + chain[c + 1..], heads[ch.categ]) <==> links.Repaired? || c == |chain| - 1
  {
    var prev, next := ch.prevChunk, ch.nextChunk;
    if prev != null {
      prev.nextChunk := next;
    } else {
      heads[ch.categ] := next;
    }
    if links.Repaired? && next != null {
      next.prevChunk := prev;
    }
    RestLinked(chain, c, heads[ch.categ], links);
  }

  /** The links of a chain from which chunk `c` was taken out, read off the links that were rewritten. */
  lemma RestLinked(chain: seq<ChunkObj>, c: nat, head: ChunkObj?, links: Variant)
    requires c < |chain| && Distinct(chain)
    requires head == if c == 0 then NextIn(chain, 0) else chain[0]
    requires forall d :: 0 <= d < |chain| && d != c ==>
      chain[d].nextChunk == if d + 1 == c then NextIn(chain, c) else NextIn(chain, d)
    requires forall d :: 0 <= d < |chain| && d != c ==>
      chain[d].prevChunk == if d == c + 1 && links.Repaired? then PrevIn(chain, c) else PrevIn(chain, d)
    ensures Linked(chain[..c] + chain[c + 1..], head) <==> links.Repaired? || c == |chain| - 1
  {
    var rest := chain[..c] + chain[c + 1..];
    RestNexts(chain, c);
    RestPrevs(chain, c, links);
    if c < |rest| {
      assert PrevIn(rest, c) == PrevIn(chain, c) != chain[c];
    }
  }

  lemma RestNexts(chain: seq<ChunkObj>, c: nat)
    requires c < |chain|
    requires forall d :: 0 <= d < |chain| && d != c ==>
      chain[d].nextChunk == if d + 1 == c then NextIn(chain, c) else NextIn(chain, d)
    ensures var rest := chain[..c] + chain[c + 1..];
      forall x :: 0 <= x < |rest| ==> rest[x].nextChunk == NextIn(rest, x)
  {
  }

  lemma RestPrevs(chain: seq<ChunkObj>, c: nat, links: Variant)
    requires c < |chain|
    requires forall d :: 0 <= d < |chain| && d != c ==>
      chain[d].prevChunk == if d == c + 1 && links.Repaired? then PrevIn(chain, c) else PrevIn(chain, d)
    ensures var rest := chain[..c] + chain[c + 1..];
      && (forall x :: 0 <= x < |rest| && x != c ==> rest[x].prevChunk == PrevIn(rest, x))
      && (c < |rest| ==> rest[c].prevChunk == if links.Repaired? then PrevIn(chain, c) else chain[c])
  {
  }

  // ---------------------------------------------------------------- walking and growing a chain

  /** The walk along a chain: cached maxima alone decide which chunks are looked into. */
  method FindChunk(head: ChunkObj?, size: nat, ghost chain: seq<ChunkObj>)
    returns (ch: ChunkObj?, last: ChunkObj?, ghost c: nat)
    requires Linked(chain, head)
    ensures c <= |chain| && forall j :: 0 <= j < c ==> chain[j].maxAvail < size
    ensures ch == if c < |chain| then chain[c] else null
    ensures ch != null ==> ch.maxAvail >= size
    ensures last == if c == 0 then null else chain[c - 1]
  {
    ch, last, c := head, null, 0;
    while ch != null && ch.maxAvail < size
      invariant c <= |chain| && ch == if c < |chain| then chain[c] else null
      invariant last == if c == 0 then null else chain[c - 1]
      invariant forall j :: 0 <= j < c ==> chain[j].maxAvail < size
      decreases |chain| - c
    {
      last := ch;
      ch := ch.nextChunk;
      c := c + 1;
    }
  }

  ghost function ObjectsOf(chains: seq<seq<ChunkObj>>): set<ChunkObj> {
    set k: nat, c: nat | k < |chains| && c < |chains[k]| :: chains[k][c]
  }

  ghost function BuffersOf(chains: seq<seq<ChunkObj>>): set<array<Byte>> {
    set k: nat, c: nat | k < |chains| && c < |chains[k]| :: chains[k][c].bytes
  }

  /** Every chain is linked; `objects` is given apart so that the frame is plain to see. */
  ghost predicate AllLinked(chains: seq<seq<ChunkObj>>, heads: array<ChunkObj?>, objects: set<ChunkObj>)
    requires objects == ObjectsOf(chains)
    reads heads, objects`prevChunk, objects`nextChunk
  {
    |chains| == heads.Length && forall k :: 0 <= k < |chains| ==> Linked(chains[k], heads[k])
  }

  /** Hanging a new chunk, or nothing if mapping failed, behind the last one of a chain. */
  method Append(heads: array<ChunkObj?>, k: nat, prev: ChunkObj?, ch: ChunkObj?, ghost chain: seq<ChunkObj>)
    requires k < heads.Length && Linked(chain, heads[k]) && Distinct(chain)
    requires prev == if chain == [] then null else chain[|chain| - 1]
    requires ch != null ==> ch !in chain && ch.prevChunk == prev && ch.nextChunk == null
    modifies heads, chain`nextChunk
    ensures forall j :: 0 <= j < heads.Length && j != k ==> heads[j] == old(heads[j])
    ensures Linked(if ch == null then chain else chain + [ch], heads[k])
  {
    if prev != null {
      prev.nextChunk := ch;
    } else {
      heads[k] := ch;
    }
    if ch != null {
      ghost var longer := chain + [ch];
      forall x | 0 <= x < |longer|
        ensures longer[x].prevChunk == PrevIn(longer, x) && longer[x].nextChunk == NextIn(longer, x)
      {
        if x < |chain| - 1 {
          assert longer[x] == chain[x] && longer[x + 1] == chain[x + 1];
        }
      }
    }
  }

  /** The same among all the chains: the others keep their links. */
  method AppendTo(heads: array<ChunkObj?>, k: nat, prev: ChunkObj?, ch: ChunkObj?, ghost chains: seq<seq<ChunkObj>>)
    requires AllLinked(chains, heads, ObjectsOf(chains)) && AllDistinct(chains) && k < |chains|
    requires prev == if chains[k] == [] then null else chains[k][|chains[k]| - 1]
    requires ch != null ==> ch !in chains[k] && ch.prevChunk == prev && ch.nextChunk == null
    modifies heads, chains[k]`nextChunk
    ensures ch == null ==> AllLinked(chains, heads, ObjectsOf(chains))
    ensures ch != null ==> var longer := chains[k := chains[k] + [ch]]; AllLinked(longer, heads, ObjectsOf(longer))
  {
    InOneChain(chains, k);
    forall j | 0 <= j < |chains| && j != k ensures forall c :: 0 <= c < |chains[j]| ==> chains[j][c] !in chains[k] {
      OtherChain(chains, j, k);
    }
    hide AllDistinct, Distinct, Linked;
    Append(heads, k, prev, ch, chains[k]);
  }

  lemma InOneChain(chains: seq<seq<ChunkObj>>, k: nat)
    requires AllDistinct(chains) && k < |chains|
    ensures Distinct(chains[k])
  {
  }

  lemma AppendDistinct(chains: seq<seq<ChunkObj>>, k: nat, ch: ChunkObj)
    requires k < |chains| && AllDistinct(chains)
    requires forall j: nat, c: nat :: HasObj(chains, j, c) ==> chains[j][c] != ch && chains[j][c].bytes != ch.bytes
    ensures AllDistinct(chains[k := chains[k] + [ch]])
  {
  }

  /** What allocating from the picked chunk makes of the heap, field by field. */
  lemma AllocFrom(s: Heap, request: nat, mapping: Option<nat>, v: Chunk)
    requires HeapInv(s) && CanAlloc(s, request, mapping, Repaired) && Alloc(s, request, mapping, Repaired).1.Some?
    requires var req := Required(Rounded(request), Repaired);
      var c := PickChunk(s.chains[req.categ], Rounded(request));
      && req.chunkSize >= CHUNK_HEADER + 2 * BLOCK_HEADER
      && (c == |s.chains[req.categ]| ==> mapping.Some?)
      && v == if c < |s.chains[req.categ]| then s.chains[req.categ][c] else FreshChunk(mapping.value, req)
    ensures FirstFit(v.blocks, Rounded(request)) < |v.blocks|
    ensures var (t, r) := Alloc(s, request, mapping, Repaired);
      var req := Required(Rounded(request), Repaired);
      var c := PickChunk(s.chains[req.categ], Rounded(request));
      var i := FirstFit(v.blocks, Rounded(request));
      var carved := Carve(v, Rounded(request));
      && HeapInv(t) && i < |carved.blocks|
      && t.used == s.used + carved.blocks[i].size
      && t.mapped == s.mapped + (if c < |s.chains[req.categ]| then 0 else req.chunkSize)
      && t.chains == (if c < |s.chains[req.categ]|
                      then SetChunk(s, req.categ, c, carved) else Chain(s, req.categ, carved)).chains
      && r == Some(v.base + Off(v.base, v.blocks, i) + BLOCK_HEADER)
  {
    hide HeapInv, Alloc, CanAlloc, Rounded, Required;
    var k, c, ch := AllocLands(s, request, mapping, Repaired);
    AllocKeeps(s, request, mapping, Repaired);
    CarveKeeps(ch, k, Rounded(request));
  }

  lemma FreshIs(req: Requirements, mapping: Option<nat>)
    requires req.chunkSize >= CHUNK_HEADER + 2 * BLOCK_HEADER && mapping.Some?
    ensures FreshChunk(mapping.value, req) ==
      Chunk(mapping.value, req.chunkSize, req.categ, InitialBlocks(mapping.value, req.chunkSize))
  {
  }

  // ---------------------------------------------------------------- the allocator

  ghost predicate ShapeOf(chains: seq<seq<ChunkObj>>, heads: array<ChunkObj?>)
    reads heads, ObjectsOf(chains)
  {
    && heads.Length == |chains| == CATEGORIES
    && AllLinked(chains, heads, ObjectsOf(chains))
    && AllDistinct(chains)
    && (forall k: nat, c: nat :: HasObj(chains, k, c) ==> chains[k][c].categ == k && chains[k][c].Valid())
  }

  class Allocator {
    const heads: array<ChunkObj?>
    var totalAllocator: int
    var totalUser: int
    ghost var chains: seq<seq<ChunkObj>>
    ghost var heap: Heap

    ghost function Chunks(): set<ChunkObj>
      reads this`chains
    {
      ObjectsOf(chains)
    }

    ghost function Buffers(): set<array<Byte>>
      reads this`chains
    {
      BuffersOf(chains)
    }

    ghost function Snap(): (snap: Snapshot)
      reads this`chains, Chunks(), Buffers()
      ensures snap.Keys == Chunks()
    {
      map x | x in Chunks() :: (x.blocks, x.bytes[..])
    }

    /** Links, categories and the chunks' own invariants. */
    ghost predicate Shape()
      reads this`chains, heads, Chunks()
    {
      ShapeOf(chains, heads)
    }

    /** The objects spell out the heap as a value. */
    ghost predicate Mirrors(heap: Heap)
      reads this`chains, Chunks()
    {
      && |heap.chains| == |chains|
      && (forall k :: 0 <= k < |chains| ==> |heap.chains[k]| == |chains[k]|)
      && (forall k: nat, c: nat :: HasObj(chains, k, c) ==> heap.chains[k][c] == chains[k][c].Value())
    }

    ghost predicate Valid()
      reads this, heads, Chunks()
    {
      && Shape() && Mirrors(heap) && HeapInv(heap)
      && totalAllocator == heap.mapped && totalUser == heap.used
    }

    /** A zeroed `MFList`. */
    constructor ()
      ensures Valid() && heap == EMPTY && fresh(heads)
    {
      heads := new ChunkObj?[CATEGORIES](_ => null);
      totalAllocator, totalUser := 0, 0;
      chains := [[], [], [], [], [], []];
      heap := EMPTY;
      new;
      hide ChunkObj.Valid, ChunkInv, Apart;
      assert forall k: nat, c: nat :: !HasObj(chains, k, c) && !Has(EMPTY, k, c);
    }

    // -------------------------------------------------------------- chaining a new chunk

    /** `mflist__chain_new_chunk`; `mapping` is the kernel's answer. */
    method ChainNewChunk(prev: ChunkObj?, chunkSize: nat, k: nat, mapping: Option<nat>) returns (ch: ChunkObj?)
      requires Shape() && k < CATEGORIES && chunkSize >= CHUNK_HEADER + 2 * BLOCK_HEADER
      requires prev == if chains[k] == [] then null else chains[k][|chains[k]| - 1]
      modifies this`totalAllocator, this`chains, heads, Chunks()`nextChunk
      ensures mapping.None? ==> ch == null && chains == old(chains) && totalAllocator == old(totalAllocator)
      ensures mapping.Some? ==> (
        && ch != null && fresh(ch) && fresh(ch.bytes)
        && chains == old(chains)[k := old(chains)[k] + [ch]] && totalAllocator == old(totalAllocator) + chunkSize
        && ch.Value() == Chunk(mapping.value, chunkSize, k, InitialBlocks(mapping.value, chunkSize))
        && ch.maxAvail == chunkSize - FirstBlock(mapping.value) - BLOCK_HEADER)
      ensures Shape()
    {
      hide AllLinked, AllDistinct, Linked, ChunkObj.Valid;
      ch := null;
      if mapping.Some? {
        ch := new ChunkObj(mapping.value, chunkSize, k);
        InitialMaxAvail(mapping.value, chunkSize);
        ch.prevChunk := prev;
        totalAllocator := totalAllocator + chunkSize;
      }
      AppendTo(heads, k, prev, ch, chains);
      if ch != null {
        chains := chains[k := chains[k] + [ch]];
        AppendDistinct(old(chains), k, ch);
      }
      forall j: nat, c: nat | HasObj(chains, j, c) ensures chains[j][c].categ == j && chains[j][c].Valid() {
        if ch == null || j != k || c < |old(chains)[k]| {
          assert HasObj(old(chains), j, c) && chains[j][c] == old(chains)[j][c];
        }
      }
    }

    // -------------------------------------------------------------- allocating

    /** Carving the picked chunk touches no other. */
    method ServeFrom(ch: ChunkObj, size: nat, zeroInitialize: bool, ghost k: nat, ghost c: nat)
      returns (off: nat, served: nat)
      requires Shape() && HasObj(chains, k, c) && ch == chains[k][c]
      requires 0 < size <= ch.maxAvail && size % BLOCK_HEADER == 0
      modifies ch`headers, ch`blocks, ch`maxAvail, ch.bytes, this`totalUser
      ensures Shape() && FirstFit(old(ch.blocks), size) < |old(ch.blocks)|
      ensures var i := FirstFit(old(ch.blocks), size);
        && ch.Value() == Carve(old(ch.Value()), size)
        && i < |ch.blocks| && served == ch.blocks[i].size
        && off == Off(ch.base, ch.blocks, i) == Off(ch.base, old(ch.blocks), i)
      ensures forall j: nat, d: nat :: HasObj(chains, j, d) && (j, d) != (k, c) ==>
        chains[j][d].Value() == old(chains[j][d].Value())
      ensures served >= size && totalUser == old(totalUser) + served &&
        off + BLOCK_HEADER + served <= ch.size == ch.bytes.Length
      ensures forall a :: 0 <= a < ch.size && Held(ch.base, old(ch.blocks), a) ==> ch.bytes[a] == old(ch.bytes[a])
      ensures zeroInitialize ==> forall a :: off + BLOCK_HEADER <= a < off + BLOCK_HEADER + served ==> ch.bytes[a] == 0
    {
      hide AllLinked, AllDistinct, Linked;
      ghost var before := chains;
      OthersDiffer(k, c);
      off, served := ch.Carve(size, zeroInitialize);
      totalUser := totalUser + served;
      assert ch.bytes.Length == ch.size;
      hide ChunkObj.Valid;
      forall k': nat, c': nat | HasObj(chains, k', c') ensures chains[k'][c'].categ == k' && chains[k'][c'].Valid() {
        assert HasObj(before, k', c');
      }
    }

    lemma OthersDiffer(k: nat, c: nat)
      requires AllDistinct(chains) && HasObj(chains, k, c)
      ensures forall j: nat, d: nat :: HasObj(chains, j, d) && (j, d) != (k, c) ==>
        chains[j][d] != chains[k][c] && chains[j][d].bytes != chains[k][c].bytes
    {
    }

    /** What the search for a chunk comes to: the first one that has room, or a fresh one behind the others, or none. */
    ghost predicate Found(objects: seq<seq<ChunkObj>>, req: Requirements, size: nat, mapping: Option<nat>,
        ch: ChunkObj?, c: nat)
      reads this, Chunks(), ObjectsOf(objects), if ch == null then {} else {ch}
    {
      && req.categ < CATEGORIES == |objects| == |heap.chains| && req.chunkSize >= CHUNK_HEADER + 2 * BLOCK_HEADER
      && c == PickChunk(heap.chains[req.categ], size)
      && (ch == null <==> c == |heap.chains[req.categ]| && mapping.None?)
      && (forall j :: 0 <= j < |objects| ==> |heap.chains[j]| == |objects[j]|)
      && (forall j: nat, d: nat :: HasObj(objects, j, d) ==> heap.chains[j][d] == objects[j][d].Value())
      && (ch != null ==> ch.maxAvail >= size)
      && (if c < |heap.chains[req.categ]| then
            chains == objects && ch == chains[req.categ][c] && totalAllocator == heap.mapped
          else if ch == null then
            chains == objects && totalAllocator == heap.mapped
          else
            && chains == objects[req.categ := objects[req.categ] + [ch]]
            && ch.Value() == FreshChunk(mapping.value, req)
            && totalAllocator == heap.mapped + req.chunkSize)
    }

    /** After the pick: the heap as a value still lacks the fresh chunk, if there is one. */
    ghost predicate Picked(objects: seq<seq<ChunkObj>>, req: Requirements, size: nat, mapping: Option<nat>,
        ch: ChunkObj, c: nat)
      reads this, heads, Chunks(), ObjectsOf(objects), ch
    {
      Shape() && Found(objects, req, size, mapping, ch, c) && totalUser == heap.used
    }

    /** The first chunk of a chain that has room, or a fresh one at its end if the kernel grants it. */
    method PickOrMap(req: Requirements, size: nat, mapping: Option<nat>) returns (ch: ChunkObj?, ghost c: nat)
      requires Shape() && Mirrors(heap) && req.categ < CATEGORIES && size > 0
      requires totalAllocator == heap.mapped && totalUser == heap.used
      requires req.chunkSize >= size + CHUNK_HEADER + BLOCK_HEADER + Reserve(Repaired)
      modifies this`totalAllocator, this`chains, heads, Chunks()`nextChunk
      ensures Shape() && Found(old(chains), req, size, mapping, ch, c)
      ensures ch == null ==> Mirrors(heap)
      ensures ch != null ==> (ch in old(Chunks()) && ch.bytes in old(Buffers())) || (fresh(ch) && fresh(ch.bytes))
    {
      hide Allocator.Shape, FreshChunk, MaxAvail, ChunkObj.Valid, AllDistinct, AllLinked, ChunkObj.Value;
      var k := req.categ;
      HeadOf(k);
      if heads[k] == null {
        ch := ChainNewChunk(null, req.chunkSize, k, mapping);
        c := 0;
        if mapping.Some? { FreshIs(req, mapping); }
      } else {
        var last: ChunkObj?;
        ch, last, c := FindIn(k, size);
        if ch == null {
          ch := ChainNewChunk(last, req.chunkSize, k, mapping);
          if mapping.Some? { FreshIs(req, mapping); }
        }
      }
    }

    lemma HeadOf(k: nat)
      requires Shape() && k < CATEGORIES
      ensures |chains| == heads.Length == CATEGORIES
      ensures heads[k] == null <==> chains[k] == []
    {
    }

    /** `FindChunk` on a chain of the allocator, in terms of the values of its chunks. */
    method FindIn(k: nat, size: nat) returns (ch: ChunkObj?, last: ChunkObj?, ghost c: nat)
      requires Shape() && k < CATEGORIES && heads.Length == |chains| == CATEGORIES
      ensures c <= |chains[k]| && forall j :: 0 <= j < c ==> MaxAvail(chains[k][j].Value().blocks) < size
      ensures ch == if c < |chains[k]| then chains[k][c] else null
      ensures ch != null ==> ch.maxAvail >= size && MaxAvail(ch.Value().blocks) >= size
      ensures last == if c == 0 then null else chains[k][c - 1]
    {
      CachedMaxima(k);
      hide AllDistinct, ChunkObj.Valid;
      ch, last, c := FindChunk(heads[k], size, chains[k]);
    }

    /** The cached maxima are those of the value. */
    lemma CachedMaxima(k: nat)
      requires Shape() && k < |chains|
      ensures forall c :: 0 <= c < |chains[k]| ==> chains[k][c].maxAvail == MaxAvail(chains[k][c].Value().blocks)
    {
    }

    /** The objects still spell out the heap when one chunk has changed on both sides. */
    lemma MirrorsSet(before: Heap, after: Heap, k: nat, c: nat)
      requires Has(before, k, c) && HasObj(chains, k, c)
      requires after.chains == SetChunk(before, k, c, chains[k][c].Value()).chains
      requires |before.chains| == |chains| && forall j :: 0 <= j < |chains| ==> |before.chains[j]| == |chains[j]|
      requires forall j: nat, d: nat :: HasObj(chains, j, d) && (j, d) != (k, c) ==>
        before.chains[j][d] == chains[j][d].Value()
      ensures Mirrors(after)
    {
    }

    lemma MirrorsChain(before: Heap, after: Heap, k: nat, ch: ChunkObj, objects: seq<seq<ChunkObj>>)
      requires |before.chains| == |objects| && k < |objects| && chains == objects[k := objects[k] + [ch]]
      requires after.chains == Chain(before, k, ch.Value()).chains
      requires forall j :: 0 <= j < |objects| ==> |before.chains[j]| == |objects[j]|
      requires forall j: nat, d: nat :: HasObj(objects, j, d) ==> before.chains[j][d] == objects[j][d].Value()
      ensures Mirrors(after)
    {
    }

    /** The second half of `mflist_alloc1`. */
    method ServePicked(request: nat, size: nat, req: Requirements, zeroInitialize: bool, mapping: Option<nat>,
                       ch: ChunkObj, ghost c: nat, ghost objects: seq<seq<ChunkObj>>, ghost snap: Snapshot)
      returns (r: Pointer)
      requires HeapInv(heap) && CanAlloc(heap, request, mapping, Repaired)
      requires Alloc(heap, request, mapping, Repaired).1.Some?
      requires size == Rounded(request) >= request > 0 && size % BLOCK_HEADER == 0 && req == Required(size, Repaired)
      requires Picked(objects, req, size, mapping, ch, c) && OwnBuffer(snap.Keys, ch) && Unchanged(snap)
      modifies this`heap, this`totalUser, ch`headers, ch`blocks, ch`maxAvail, ch.bytes
      ensures Valid() && heap == Alloc(old(heap), request, mapping, Repaired).0
      ensures Alloc(old(heap), request, mapping, Repaired).1 == AddressOf(Some(r)) && r.chunk == ch
      ensures BytesKept(snap)
      ensures zeroInitialize ==> Zeroed(r, request)
    {
      hide AllLinked, AllDistinct, HeapInv, ChunkObj.Valid, Carve, Rounded, Required, CanAlloc, Alloc, PickChunk,
        FreshChunk;
      ghost var before, v := heap, ch.Value();
      assert HasObj(chains, req.categ, c);
      AllocFrom(before, request, mapping, v);
      var off, served := ServeFrom(ch, size, zeroInitialize, req.categ, c);
      heap := Alloc(heap, request, mapping, Repaired).0;
      r := Pointer(ch, off + BLOCK_HEADER);
      if c < |before.chains[req.categ]| {
        MirrorsSet(before, heap, req.categ, c);
      } else {
        assert forall j: nat, d: nat :: HasObj(objects, j, d) ==> HasObj(chains, j, d) && chains[j][d] == objects[j][d];
        MirrorsChain(before, heap, req.categ, ch, objects);
      }
    }

    /** `mflist_alloc1`; `mapping` is what the kernel answers if it is asked for a chunk. */
    method Malloc(request: nat, zeroInitialize: bool, mapping: Option<nat>) returns (r: Option<Pointer>)
      requires Valid() && CanAlloc(heap, request, mapping, Repaired)
      modifies this, heads, Chunks(), Buffers()
      ensures Valid() && heap == Alloc(old(heap), request, mapping, Repaired).0
      ensures Alloc(old(heap), request, mapping, Repaired).1 == AddressOf(r)
      ensures BytesKept(old(Snap()))
      ensures zeroInitialize && r.Some? ==>
        r.value.payload + request <= r.value.chunk.bytes.Length && forall a ::
          r.value.payload <= a < r.value.payload + request ==> r.value.chunk.bytes[a] == 0
    {
      hide AllLinked, AllDistinct, HeapInv, ChunkObj.Valid, Carve, Rounded, Required, CanAlloc, Alloc, PickChunk,
        FreshChunk, NoneFits, Picked, Allocator.Shape;
      ghost var before, objects := heap, chains;
      AllocOutcome(before, request, mapping, Repaired);
      if request == 0 || request > LargestRequest(Repaired) { // Repair: requests whose sums wrap are refused
        return None;
      }
      var size := Rounded(request);
      var req := GetChunkRequirements(size, Repaired);
      RequestServable(request, Repaired);
      NoneFitsIsNoPick(before, request, Repaired);
      r := MallocSized(request, size, req, zeroInitialize, mapping);
    }

    lemma HasOwnBuffer(objects: seq<seq<ChunkObj>>, ch: ChunkObj, k: nat, c: nat)
      requires AllDistinct(chains) && HasObj(chains, k, c) && ch == chains[k][c]
      requires chains == objects || (k < |objects| && chains == objects[k := objects[k] + [ch]])
      ensures OwnBuffer(ObjectsOf(objects), ch)
    {
      forall x | x in ObjectsOf(objects) && x != ch ensures x.bytes != ch.bytes {
        var j: nat, d: nat :| HasObj(objects, j, d) && objects[j][d] == x;
        assert HasObj(objects, j, d);
        assert HasObj(chains, j, d) && chains[j][d] == x;
      }
    }

    /** `PickOrMap`, with all that serving from the picked chunk relies on. */
    method Pick(req: Requirements, size: nat, mapping: Option<nat>, ghost snap: Snapshot)
      returns (ch: ChunkObj?, ghost c: nat)
      requires Unchanged(snap) && snap.Keys == Chunks()
      requires Valid() && req.categ < CATEGORIES && size > 0
      requires req.chunkSize >= size + CHUNK_HEADER + BLOCK_HEADER + Reserve(Repaired)
      modifies this`totalAllocator, this`chains, heads, Chunks()`nextChunk
      ensures ch == null <==> PickChunk(heap.chains[req.categ], size) == |heap.chains[req.categ]| && mapping.None?
      ensures ch == null ==> Valid()
      ensures Unchanged(snap)
      ensures ch != null ==> Picked(old(chains), req, size, mapping, ch, c) && OwnBuffer(old(Chunks()), ch)
      ensures ch != null ==> (ch in old(Chunks()) && ch.bytes in old(Buffers())) || (fresh(ch) && fresh(ch.bytes))
    {
      hide AllLinked, HeapInv, ChunkObj.Valid, PickChunk, FreshChunk;
      ghost var objects := chains;
      ch, c := PickOrMap(req, size, mapping);
      if ch != null {
        hide Allocator.Picked;
        HasOwnBuffer(objects, ch, req.categ, c);
        if c < |heap.chains[req.categ]| {
          assert HasObj(objects, req.categ, c);
        }
      }
    }

    method MallocSized(request: nat, size: nat, req: Requirements, zeroInitialize: bool, mapping: Option<nat>)
      returns (r: Option<Pointer>)
      requires Valid() && CanAlloc(heap, request, mapping, Repaired)
      requires size == Rounded(request) >= request > 0 && size % BLOCK_HEADER == 0 && req == Required(size, Repaired)
      requires req.categ < CATEGORIES && req.chunkSize >= size + CHUNK_HEADER + BLOCK_HEADER + Reserve(Repaired)
      requires Alloc(heap, request, mapping, Repaired).1.None? <==>
        PickChunk(heap.chains[req.categ], size) == |heap.chains[req.categ]| && mapping.None?
      requires Alloc(heap, request, mapping, Repaired).1.None? ==> Alloc(heap, request, mapping, Repaired).0 == heap
      modifies this, heads, Chunks(), Buffers()
      ensures Valid() && heap == Alloc(old(heap), request, mapping, Repaired).0
      ensures Alloc(old(heap), request, mapping, Repaired).1 == AddressOf(r)
      ensures BytesKept(old(Snap()))
      ensures zeroInitialize && r.Some? ==> Zeroed(r.value, request)
    {
      assert HeapInv(heap);
      hide HeapInv, CanAlloc, Alloc, PickChunk, Required, Rounded, Allocator.Picked, OwnBuffer, Allocator.Valid,
        Zeroed, Held;
      ghost var objects, snap := chains, Snap();
      var ch, c := Pick(req, size, mapping, snap);
      if ch == null {
        r := None;
      } else {
        var p := ServePicked(request, size, req, zeroInitialize, mapping, ch, c, objects, snap);
        r := Some(p);
      }
    }

    // -------------------------------------------------------------- freeing

    /** Merging inside one chunk touches no other. */
    method MergeIn(ch: ChunkObj, off: nat, ghost k: nat, ghost c: nat, ghost i: nat)
      requires Shape() && HasObj(chains, k, c) && ch == chains[k][c]
      requires i < |ch.blocks| && off == Off(ch.base, ch.blocks, i) && !ch.blocks[i].avail
      modifies ch`headers, ch`blocks, ch`maxAvail, ch.bytes
      ensures Shape() && ch.Value() == old(ch.Value()).(blocks := Release(old(ch.blocks), i))
      ensures forall j: nat, d: nat :: HasObj(chains, j, d) && (j, d) != (k, c) ==>
        chains[j][d].Value() == old(chains[j][d].Value())
      ensures ch.bytes.Length == ch.size
      ensures forall a :: 0 <= a < ch.size && Held(ch.base, old(ch.blocks), a) && Held(ch.base, ch.blocks, a) ==>
        ch.bytes[a] == old(ch.bytes[a])
    {
      hide AllLinked, AllDistinct, Linked;
      ghost var before := chains;
      OthersDiffer(k, c);
      var merged := ch.Merge(off, i);
      assert ch.bytes.Length == ch.size;
      hide ChunkObj.Valid;
      forall k': nat, c': nat | HasObj(chains, k', c') ensures chains[k'][c'].categ == k' && chains[k'][c'].Valid() {
        assert HasObj(before, k', c');
      }
    }

    /** The bounded case of `mflist_free`. */
    method FreeBounded(ch: ChunkObj, off: nat, ghost k: nat, ghost c: nat, ghost i: nat, ghost snap: Snapshot)
      requires Valid() && LiveBlock(heap, k, c, i) && Bounded(k) && Has(heap, k, c) && HasObj(chains, k, c) &&
        ch == chains[k][c]
      requires i < |ch.blocks| && off == Off(ch.base, ch.blocks, i) && off in ch.headers &&
        ch.headers[off].size == ch.blocks[i].size
      requires Unchanged(snap) && snap.Keys == Chunks()
      modifies this`heap, this`totalUser, ch`headers, ch`blocks, ch`maxAvail, ch.bytes
      ensures Valid() && heap == FreeAt(old(heap), k, c, i)
      ensures BytesKept(snap)
    {
      hide AllLinked, AllDistinct, HeapInv, ChunkObj.Valid, Release;
      ghost var before := heap;
      assert before.chains[k][c] == ch.Value();
      FreeKeeps(heap, k, c, i);
      HasOwnBuffer(chains, ch, k, c);
      totalUser := totalUser - ch.headers[off].size;
      MergeIn(ch, off, k, c, i);
      heap := FreeAt(heap, k, c, i);
      MirrorsSet(before, heap, k, c);
    }

    /** `mflist__del_chained_chunk`, with the back link of the next chunk repaired. */
    method DelChainedChunk(ch: ChunkObj, ghost k: nat, ghost c: nat)
      requires Shape() && HasObj(chains, k, c) && ch == chains[k][c]
      modifies this`totalAllocator, this`chains, heads, Chunks()`prevChunk, Chunks()`nextChunk
      ensures Shape() && chains == Without(old(chains), k, c)
      ensures totalAllocator == old(totalAllocator) - ch.size
    {
      hide AllLinked, AllDistinct, ChunkObj.Valid;
      assert ch.categ == k;
      ghost var rest := Without(chains, k, c);
      UnlinkFrom(heads, ch, Repaired, chains, k, c);
      DropShape(k, c);
      totalAllocator := totalAllocator - ch.size;
      chains := rest;
    }

    /** The shape without one chunk, before the ghost list of chains says so. */
    lemma DropShape(k: nat, c: nat)
      requires heads.Length == |chains| == CATEGORIES && HasObj(chains, k, c) && AllDistinct(chains)
      requires AllLinked(Without(chains, k, c), heads, ObjectsOf(Without(chains, k, c)))
      requires forall j: nat, d: nat :: HasObj(chains, j, d) ==> chains[j][d].categ == j && chains[j][d].Valid()
      ensures ShapeOf(Without(chains, k, c), heads)
    {
      hide AllLinked, AllDistinct, ChunkObj.Valid;
      DropDistinct(chains, k, c);
      DropValid(chains, k, c);
    }

    lemma DropValid(objects: seq<seq<ChunkObj>>, k: nat, c: nat)
      requires HasObj(objects, k, c)
      requires forall j: nat, d: nat :: HasObj(objects, j, d) ==> objects[j][d].categ == j && objects[j][d].Valid()
      ensures var rest := Without(objects, k, c);
        forall j: nat, d: nat :: HasObj(rest, j, d) ==> rest[j][d].categ == j && rest[j][d].Valid()
    {
    }

    /** The dedicated case of `mflist_free`: the chunk goes, and the user total is left alone. */
    method FreeDedicated(ch: ChunkObj, ghost k: nat, ghost c: nat, ghost i: nat, ghost snap: Snapshot)
      requires Valid() && LiveBlock(heap, k, c, i) && !Bounded(k) && HasObj(chains, k, c) && ch == chains[k][c]
      requires Unchanged(snap) && snap.Keys == Chunks()
      modifies this`heap, this`totalAllocator, this`chains, heads, Chunks()`prevChunk, Chunks()`nextChunk
      ensures Valid() && heap == FreeAt(old(heap), k, c, i)
      ensures Unchanged(snap)
    {
      hide AllLinked, AllDistinct, HeapInv, ChunkObj.Valid;
      ghost var before, objects := heap, chains;
      assert before.chains[k][c] == ch.Value();
      FreeKeeps(heap, k, c, i);
      DelChainedChunk(ch, k, c);
      heap := FreeAt(heap, k, c, i);
      MirrorsDrop(before, heap, k, c, objects);
    }

    lemma MirrorsDrop(before: Heap, after: Heap, k: nat, c: nat, objects: seq<seq<ChunkObj>>)
      requires |before.chains| == |objects| && HasObj(objects, k, c)
      requires forall j :: 0 <= j < |objects| ==> |before.chains[j]| == |objects[j]|
      requires forall j: nat, d: nat :: HasObj(objects, j, d) ==> before.chains[j][d] == objects[j][d].Value()
      requires chains == Without(objects, k, c)
      requires after.chains == before.chains[k := before.chains[k][..c] + before.chains[k][c + 1..]]
      ensures Mirrors(after)
    {
    }

    /** `mflist_free` of a live block; the guard is turned round. */
    method Free(p: Pointer, ghost k: nat, ghost c: nat, ghost i: nat)
      requires Valid() && LiveBlock(heap, k, c, i) && HasObj(chains, k, c) && p.chunk == chains[k][c]
      requires p.payload == Off(heap.chains[k][c].base, heap.chains[k][c].blocks, i) + BLOCK_HEADER
      modifies this, heads, Chunks(), Buffers()
      ensures Valid() && heap == FreeAt(old(heap), k, c, i)
      ensures BytesKept(old(Snap()))
    {
      ghost var snap := Snap();
      var ch, off := p.chunk, p.payload - BLOCK_HEADER;
      ReadHeader(ch, k, c, i);
      if ch.headers[off].avail { // Repair: the code tests the opposite, and so leaves here
        return;
      }
      if ch.categ == DEDICATED {
        FreeDedicated(ch, k, c, i, snap);
      } else {
        FreeBounded(ch, off, k, c, i, snap);
      }
    }

    lemma ReadHeader(ch: ChunkObj, k: nat, c: nat, i: nat)
      requires Valid() && LiveBlock(heap, k, c, i) && HasObj(chains, k, c) && ch == chains[k][c]
      ensures ch.categ == k < CATEGORIES && heap.chains[k][c].blocks == ch.blocks && i < |ch.blocks|
      ensures var off := Off(ch.base, ch.blocks, i);
        off in ch.headers && !ch.headers[off].avail && ch.headers[off].size == ch.blocks[i].size
    {
      hide AllLinked, AllDistinct, HeapInv;
      assert ch.Valid() && heap.chains[k][c] == ch.Value();
      HeaderAt(ch.headers, ch.base, ch.blocks, ch.size, i);
    }
  }

  /** Unlinking from one chain leaves the links of the others. */
  method UnlinkFrom(heads: array<ChunkObj?>, ch: ChunkObj, links: Variant, ghost chains: seq<seq<ChunkObj>>,
      ghost k: nat, ghost c: nat)
    requires AllLinked(chains, heads, ObjectsOf(chains)) && AllDistinct(chains) && HasObj(chains, k, c)
    requires ch == chains[k][c] && ch.categ == k && links.Repaired?
    modifies heads, chains[k]`prevChunk, chains[k]`nextChunk
    ensures var rest := Without(chains, k, c); AllLinked(rest, heads, ObjectsOf(rest))
  {
    InOneChain(chains, k);
    forall j | 0 <= j < |chains| && j != k ensures forall d :: 0 <= d < |chains[j]| ==> chains[j][d] !in chains[k] {
      OtherChain(chains, j, k);
    }
    assert forall j :: 0 <= j < |chains| ==> Linked(chains[j], heads[j]);
    Unlink(heads, ch, links, chains[k], c);
    assert forall j :: 0 <= j < |chains| && j != k ==> Linked(chains[j], heads[j]);
    WithoutLinked(chains, heads, k, c);
  }

  lemma WithoutLinked(chains: seq<seq<ChunkObj>>, heads: array<ChunkObj?>, k: nat, c: nat)
    requires HasObj(chains, k, c) && |chains| == heads.Length
    requires forall j :: 0 <= j < |chains| && j != k ==> Linked(chains[j], heads[j])
    requires Linked(chains[k][..c] + chains[k][c + 1..], heads[k])
    ensures var rest := Without(chains, k, c); AllLinked(rest, heads, ObjectsOf(rest))
  {
  }

  lemma DropDistinct(chains: seq<seq<ChunkObj>>, k: nat, c: nat)
    requires HasObj(chains, k, c) && AllDistinct(chains)
    ensures AllDistinct(Without(chains, k, c))
  {
  }

  /** No other chunk shares this one's buffer. */
  ghost predicate OwnBuffer(objects: set<ChunkObj>, ch: ChunkObj) {
    forall x :: x in objects && x != ch ==> x.bytes != ch.bytes
  }

  /** What the chunks looked like at some earlier point. */
  type Snapshot = map<ChunkObj, (seq<Block>, seq<Byte>)>

  /** The chunks of the snapshot are as they were then. */
  ghost predicate Unchanged(snap: Snapshot)
    reads snap.Keys, set x | x in snap :: x.bytes
  {
    forall x :: x in snap ==> snap[x] == (x.blocks, x.bytes[..])
  }

  /** Every byte of a payload live then and now is as it was. */
  ghost predicate BytesKept(snap: Snapshot)
    reads snap.Keys, set x | x in snap :: x.bytes
  {
    forall x :: x in snap ==> ChunkBytesKept(x, snap[x].0, snap[x].1)
  }

  ghost predicate ChunkBytesKept(ch: ChunkObj, blocks: seq<Block>, bytes: seq<Byte>)
    reads ch, ch.bytes
  {
    |bytes| == ch.bytes.Length
    && forall a :: 0 <= a < |bytes| && Held(ch.base, blocks, a) && Held(ch.base, ch.blocks, a) ==>
      ch.bytes[a] == bytes[a]
  }
}

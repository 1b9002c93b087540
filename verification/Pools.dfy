/** The whole pool: a chain of chunks, and its two totals. */
module Pools {
  import opened Options
  import opened MPool
  import opened Sizing
  import Bits

  datatype Pointer = Pointer(chunk: PoolChunk, off: nat)

  /** What the kernel hands out for a new chunk: an address, and memory that holds anything. */
  datatype Mapping = Mapping(base: nat, stale: map<nat, Cell>)

  // ---------------------------------------------------------------- the address test

  /** The alignment test on an address that is to be freed. */
  predicate Divides(bs: nat, base: nat)
    requires bs > 0
  {
    base % bs == 0
  }

  predicate PassesAlignmentTest(addr: nat, bs: nat)
    requires bs > 0
  {
    (addr - HEADER) % bs == 0
  }

  /** The address of a block passes exactly if the base of its chunk is a multiple of the block size. */
  lemma {:induction false} AlignmentTestIff(base: nat, off: nat, bs: nat, size: nat)
    requires bs > 0 && off in AllBlocks(bs, size)
    ensures off >= HEADER && (PassesAlignmentTest(base + off, bs) <==> Divides(bs, base))
  {
    var k :| 0 <= k < |AllBlocks(bs, size)| && AllBlocks(bs, size)[k] == off;
    BlocksFromIs(HEADER, bs, size, k);
    hide AllBlocks;
    MultipleOnTop(base, k, bs);
  }

  /** The kernel's page aligned bases pass exactly the block sizes that divide every base, such as the divisors
      of the page size. */
  lemma PageBasesServe(base: nat, bs: nat)
    requires bs > 0 && base % 4096 == 0 && 4096 % bs == 0
    ensures Divides(bs, base)
  {
    var k, q := base / 4096, 4096 / bs;
    assert 4096 == q * bs;
    Associates(k, q, bs);
    Bits.ModUnique(base, bs, k * q, 0);
  }

  lemma Associates(k: nat, q: nat, bs: nat)
    ensures k * (q * bs) == (k * q) * bs
  {
  }

  lemma MultipleOnTop(base: nat, k: nat, bs: nat)
    requires bs > 0
    ensures (base + k * bs) % bs == base % bs
  {
    Bits.Distributes(bs, base / bs, k);
    Bits.ModUnique(base + k * bs, bs, base / bs + k, base % bs);
  }

  // ---------------------------------------------------------------- counting

  /** Live blocks in chunks of `n` blocks each with these free stacks. */
  function LiveCount(frees: seq<seq<nat>>, n: nat): int {
    if frees == [] then 0 else n - |frees[0]| + LiveCount(frees[1..], n)
  }

  lemma {:induction false} LiveCountSet(frees: seq<seq<nat>>, n: nat, c: nat, f: seq<nat>)
    requires c < |frees|
    ensures LiveCount(frees[c := f], n) == LiveCount(frees, n) + |frees[c]| - |f|
  {
    if c == 0 {
      assert frees[0 := f][1..] == frees[1..];
    } else {
      assert frees[c := f][1..] == frees[1..][c - 1 := f];
      LiveCountSet(frees[1..], n, c - 1, f);
    }
  }

  lemma {:induction false} LiveCountAppend(frees: seq<seq<nat>>, n: nat, f: seq<nat>)
    ensures LiveCount(frees + [f], n) == LiveCount(frees, n) + n - |f|
  {
    if frees == [] {
      assert frees + [f] == [f] && [f][1..] == [];
    } else {
      assert (frees + [f])[1..] == frees[1..] + [f];
      LiveCountAppend(frees[1..], n, f);
    }
  }

  lemma OneMore(x: int, y: int)
    ensures (x + 1) * y == x * y + y
  {
  }

  /** Both totals as the code keeps them: the first chunk is not counted. */
  ghost predicate Accounted(mapped: int, used: int, frees: seq<seq<nat>>, bs: nat, size: nat)
    requires bs > 0
  {
    mapped == (|frees| - 1) * size && used == LiveCount(frees, |AllBlocks(bs, size)|) * bs
  }

  lemma NewAccounted(bs: nat, size: nat)
    requires bs > 0
    ensures Accounted(0, 0, [AllBlocks(bs, size)], bs, size)
  {
    hide AllBlocks;
    var f: seq<nat> := AllBlocks(bs, size);
    assert [f][1..] == [];
    assert LiveCount([f], |f|) == 0;
    ZeroProduct(0, bs);
  }

  lemma TakeAccounted(mapped: int, used: int, frees: seq<seq<nat>>, bs: nat, size: nat, c: nat, f: seq<nat>)
    requires bs > 0 && c < |frees| && Accounted(mapped, used, frees, bs, size)
    ensures |f| == |frees[c]| - 1 ==> Accounted(mapped, used + bs, frees[c := f], bs, size)
    ensures |f| == |frees[c]| + 1 ==> Accounted(mapped, used - bs, frees[c := f], bs, size)
  {
    var n := |AllBlocks(bs, size)|;
    LiveCountSet(frees, n, c, f);
    OneMore(LiveCount(frees, n), bs);
    OneMore(LiveCount(frees, n) - 1, bs);
  }

  lemma ChainAccounted(mapped: int, used: int, frees: seq<seq<nat>>, bs: nat, size: nat)
    requires bs > 0 && Accounted(mapped, used, frees, bs, size)
    ensures Accounted(mapped + size, used, frees + [AllBlocks(bs, size)], bs, size)
  {
    LiveCountAppend(frees, |AllBlocks(bs, size)|, AllBlocks(bs, size));
    OneMore(|frees| - 1, size);
  }

  // ---------------------------------------------------------------- the chain

  ghost predicate Linked(chain: seq<PoolChunk>)
    reads chain`nextChunk
  {
    forall c :: 0 <= c < |chain| ==> chain[c].nextChunk == NextIn(chain, c)
  }

  ghost function NextIn(chain: seq<PoolChunk>, c: nat): PoolChunk?
    requires c < |chain|
  {
    if c + 1 < |chain| then chain[c + 1] else null
  }

  ghost predicate Distinct(chain: seq<PoolChunk>) {
    forall c, d :: 0 <= c < d < |chain| ==> chain[c] != chain[d]
  }

  /** Every chunk is in order and has the free stack it should have. */
  ghost predicate Hold(chain: seq<PoolChunk>, frees: seq<seq<nat>>, bs: nat, size: nat)
    requires |frees| == |chain|
    reads chain`nextBlock, chain`cells, chain`free
  {
    forall c :: 0 <= c < |chain| ==> chain[c].Valid(bs, size) && chain[c].free == frees[c]
  }

  ghost predicate AllApart(chain: seq<PoolChunk>, size: nat) {
    forall c, d :: 0 <= c < d < |chain| ==> Apart(chain[c].base, chain[d].base, size)
  }

  lemma DistinctAppend(chain: seq<PoolChunk>, ch: PoolChunk)
    requires Distinct(chain) && ch !in chain
    ensures Distinct(chain + [ch])
  {
  }

  lemma AllApartAppend(chain: seq<PoolChunk>, ch: PoolChunk, size: nat)
    requires AllApart(chain, size) && forall c :: 0 <= c < |chain| ==> Apart(chain[c].base, ch.base, size)
    ensures AllApart(chain + [ch], size)
  {
  }

  lemma HoldAppend(chain: seq<PoolChunk>, frees: seq<seq<nat>>, ch: PoolChunk, bs: nat, size: nat)
    requires |frees| == |chain| && Hold(chain, frees, bs, size) && ch.Valid(bs, size)
    ensures Hold(chain + [ch], frees + [ch.free], bs, size)
  {
  }

  /** A chunk goes behind the last one. */
  method LinkBehind(ghost chain: seq<PoolChunk>, last: PoolChunk, ch: PoolChunk)
    requires chain != [] && Linked(chain) && Distinct(chain)
    requires last == chain[|chain| - 1] && ch !in chain && ch.nextChunk == null
    modifies last`nextChunk
    ensures Linked(chain + [ch])
  {
    last.nextChunk := ch;
    forall c | 0 <= c < |chain| - 1 ensures chain[c].nextChunk == NextIn(chain + [ch], c) {
      assert chain[c] != last && old(chain[c].nextChunk) == NextIn(chain, c);
    }
  }

  predicate Apart(a: nat, b: nat, size: nat) {
    a + size <= b || b + size <= a
  }

  /** Block `off` of chunk `c` is in a user's hands. */
  ghost predicate LiveIn(frees: seq<seq<nat>>, c: nat, off: nat, bs: nat, size: nat)
    requires bs > 0
  {
    c < |frees| && off in AllBlocks(bs, size) && off !in frees[c]
  }

  ghost predicate AllFull(frees: seq<seq<nat>>) {
    forall c :: 0 <= c < |frees| ==> frees[c] == []
  }

  lemma NotTwice(chain: seq<PoolChunk>, c: nat, d: nat)
    requires Distinct(chain) && c < d < |chain|
    ensures chain[c] != chain[d]
  {
  }

  /** Strictly inside the mapping of a chunk. */
  predicate Within(base: nat, addr: nat, size: nat) {
    base < addr < base + size
  }

  lemma BlockWithin(base: nat, off: nat, bs: nat, size: nat)
    requires bs > 0 && off in AllBlocks(bs, size)
    ensures Within(base, base + off, size)
  {
  }

  /** Chunk `c` is one that the code finds for an address. */
  ghost predicate Finds(chain: seq<PoolChunk>, c: int, addr: nat, bs: nat, size: nat)
    requires bs > 0
  {
    0 <= c < |chain| && PassesAlignmentTest(addr, bs) && Within(chain[c].base, addr, size)
  }

  /** Addresses for which a chunk is found are those of live blocks. */
  ghost predicate FoundIsLive(chain: seq<PoolChunk>, frees: seq<seq<nat>>, addr: nat, bs: nat, size: nat)
    requires bs > 0
  {
    forall c :: Finds(chain, c, addr, bs, size) ==> LiveIn(frees, c, addr - chain[c].base, bs, size)
  }

  /** Block `off` of chunk `c`, which is the one at `addr`, was live and is on top of the free blocks now. */
  ghost predicate TakenBack(chain: seq<PoolChunk>, frees: seq<seq<nat>>, frees': seq<seq<nat>>, c: nat, off: nat,
      addr: nat, bs: nat, size: nat)
    requires bs > 0
  {
    && c < |chain| && addr == chain[c].base + off && LiveIn(frees, c, off, bs, size)
    && frees' == frees[c := [off] + frees[c]]
  }

  lemma FoundWhere(chain: seq<PoolChunk>, frees: seq<seq<nat>>, c: nat, addr: nat, bs: nat, size: nat)
    requires bs > 0 && FoundIsLive(chain, frees, addr, bs, size) && Finds(chain, c, addr, bs, size)
    ensures c < |chain| && chain[c].base <= addr && LiveIn(frees, c, addr - chain[c].base, bs, size) && c < |frees|
  {
  }

  /** A block is found exactly if its chunk lies at a multiple of the block size; then it is found in its own chunk
      only. */
  lemma FoundIff(chain: seq<PoolChunk>, c: nat, off: nat, bs: nat, size: nat, d: nat)
    requires bs > 0 && AllApart(chain, size) && c < |chain| && off in AllBlocks(bs, size)
    ensures Finds(chain, d, chain[c].base + off, bs, size) <==> d == c && Divides(bs, chain[c].base)
  {
    AlignmentTestIff(chain[c].base, off, bs, size);
    BlockWithin(chain[c].base, off, bs, size);
    hide AllBlocks, Divides, PassesAlignmentTest;
  }

  /** Clearing leaves the totals alone, which is right only if there was nothing to give back. */
  lemma ClearAccountsIff(mapped: int, used: int, frees: seq<seq<nat>>, bs: nat, size: nat)
    requires bs > 0 && size > 0 && Accounted(mapped, used, frees, bs, size)
    ensures Accounted(mapped, used, [AllBlocks(bs, size)], bs, size) <==>
      |frees| == 1 && LiveCount(frees, |AllBlocks(bs, size)|) == 0
  {
    var n := |AllBlocks(bs, size)|;
    assert LiveCount([AllBlocks(bs, size)], n) == 0 by {
      assert [AllBlocks(bs, size)][1..] == [];
    }
    ZeroProduct(|frees| - 1, size);
    ZeroProduct(LiveCount(frees, n), bs);
    ZeroProduct(0, bs);
  }

  lemma {:induction false} ZeroProduct(x: int, y: nat)
    requires y > 0
    ensures x > 0 ==> x * y >= y
    ensures x < 0 ==> x * y <= 0 - y
    ensures x == 0 ==> x * y == 0
    decreases if x < 0 then -x else x
  {
  }

  class Pool {
    const chunkSize: nat
    const blockSize: nat
    const moreOnDemand: bool
    var totalAllocator: int
    var totalUser: int
    var firstChunk: PoolChunk
    ghost var chain: seq<PoolChunk>
    /** The free stack of each chunk. */
    ghost var frees: seq<seq<nat>>

    ghost predicate Valid()
      reads this, chain
    {
      && chain != [] && firstChunk == chain[0] && Linked(chain) && Distinct(chain)
      && |frees| == |chain|
      && blockSize >= BLOCK_FIELDS && HEADER + blockSize <= chunkSize
      && Hold(chain, frees, blockSize, chunkSize)
      && AllApart(chain, chunkSize)
    }

    ghost predicate Accounts()
      requires blockSize > 0
      reads this
    {
      Accounted(totalAllocator, totalUser, frees, blockSize, chunkSize)
    }

    ghost predicate IsLive(c: nat, off: nat)
      requires blockSize > 0
      reads this
    {
      LiveIn(frees, c, off, blockSize, chunkSize)
    }

    // -------------------------------------------------------------- initialising

    /** `mpool_init_aux` once the sizes are rounded and the first chunk is mapped. */
    constructor (chunkSize: nat, blockSize: nat, moreOnDemand: bool, m: Mapping)
      requires blockSize >= BLOCK_FIELDS && HEADER + blockSize <= chunkSize
      requires forall o :: o in AllBlocks(blockSize, chunkSize) ==> o in m.stale
      ensures Valid() && Accounts() && frees == [AllBlocks(blockSize, chunkSize)]
      ensures this.chunkSize == chunkSize && this.blockSize == blockSize && this.moreOnDemand == moreOnDemand
      ensures |chain| == 1 && chain[0].base == m.base && totalAllocator == 0 && totalUser == 0
    {
      hide PoolChunk.Valid, AllBlocks, Accounted;
      NewAccounted(blockSize, chunkSize);
      this.chunkSize, this.blockSize, this.moreOnDemand := chunkSize, blockSize, moreOnDemand;
      totalAllocator, totalUser := 0, 0;
      var c := new PoolChunk(m.base, blockSize, chunkSize, m.stale);
      firstChunk := c;
      chain, frees := [c], [AllBlocks(blockSize, chunkSize)];
      new;
    }

    // -------------------------------------------------------------- allocating

    lemma HeadTells(c: nat)
      requires Valid() && c < |chain|
      ensures chain[c].nextBlock == None <==> frees[c] == []
    {
    }

    /** The walk to the first chunk with a free block, or else to the last chunk. */
    method FindChunk() returns (ch: PoolChunk, ghost c: nat)
      requires Valid()
      ensures c < |chain| && ch == chain[c]
      ensures forall d :: 0 <= d < c ==> frees[d] == []
      ensures frees[c] == [] ==> c == |chain| - 1
      ensures ch.nextBlock == None <==> frees[c] == []
    {
      ch, c := firstChunk, 0;
      HeadTells(0);
      while ch.nextChunk != null && ch.nextBlock == None
        invariant c < |chain| && ch == chain[c]
        invariant forall d :: 0 <= d < c ==> frees[d] == []
        invariant ch.nextChunk == NextIn(chain, c)
        invariant ch.nextBlock == None <==> frees[c] == []
        decreases |chain| - c
      {
        ch := ch.nextChunk;
        c := c + 1;
        HeadTells(c);
      }
    }

    ghost predicate GoodMapping(m: Mapping)
      requires blockSize > 0
      reads this, chain
    {
      && (forall o :: o in AllBlocks(blockSize, chunkSize) ==> o in m.stale)
      && (forall c :: 0 <= c < |chain| ==> Apart(chain[c].base, m.base, chunkSize))
    }

    /** `mpool__chain_new_chunk` behind the last chunk. */
    method ChainNewChunk(last: PoolChunk, m: Mapping) returns (ch: PoolChunk)
      requires Valid() && last == chain[|chain| - 1] && GoodMapping(m)
      modifies this`totalAllocator, this`chain, this`frees, last`nextChunk
      ensures Valid() && fresh(ch) && chain == old(chain) + [ch] &&
        frees == old(frees) + [AllBlocks(blockSize, chunkSize)]
      ensures totalAllocator == old(totalAllocator) + chunkSize && ch.base == m.base
    {
      hide PoolChunk.Valid, AllBlocks, Linked, Distinct, AllApart, Hold, Apart, NextIn;
      ch := new PoolChunk(m.base, blockSize, chunkSize, m.stale);
      totalAllocator := totalAllocator + chunkSize;
      DistinctAppend(chain, ch);
      AllApartAppend(chain, ch, chunkSize);
      HoldAppend(chain, frees, ch, blockSize, chunkSize);
      LinkBehind(chain, last, ch);
      chain, frees := chain + [ch], frees + [AllBlocks(blockSize, chunkSize)];
    }

    /** `mpool__mark_block_as_used` on the head block of one chunk. */
    method TakeFrom(ch: PoolChunk, ghost c: nat) returns (off: nat)
      requires Valid() && c < |chain| && ch == chain[c] && frees[c] != []
      modifies this`totalUser, this`frees, ch`nextBlock, ch`cells, ch`free
      ensures Valid() && off == old(frees)[c][0] && frees == old(frees)[c := old(frees)[c][1..]]
      ensures totalUser == old(totalUser) + blockSize
      ensures IsLive(c, off)
    {
      hide AllBlocks, Accounted, Linked, AllApart, Apart, PoolChunk.Valid;
      off := ch.MarkUsed(blockSize, chunkSize);
      totalUser := totalUser + blockSize;
      frees := frees[c := frees[c][1..]];
    }

    /** The choice of a chunk in `mpool_alloc`: one with a free block, chained behind the others if need be. */
    method Pick(mapping: Option<Mapping>) returns (ch: PoolChunk?, ghost c: nat)
      requires Valid() && (mapping.Some? ==> GoodMapping(mapping.value))
      modifies this`totalAllocator, this`chain, this`frees, chain
      ensures Valid()
      ensures ch == null <==> AllFull(old(frees)) && (!moreOnDemand || mapping.None?)
      ensures ch != null ==> c < |chain| && ch == chain[c] && frees[c] != []
      ensures ch == null || !AllFull(old(frees)) ==>
        chain == old(chain) && frees == old(frees) && totalAllocator == old(totalAllocator)
      ensures forall d :: 0 <= d < c <= |old(frees)| ==> old(frees)[d] == []
      ensures ch != null && AllFull(old(frees)) ==> (
        && fresh(ch) && c == |old(chain)| && chain == old(chain) + [ch] && ch.base == mapping.value.base
        && frees == old(frees) + [AllBlocks(blockSize, chunkSize)]
        && totalAllocator == old(totalAllocator) + chunkSize)
    {
      ch, c := FindChunk();
      if ch.nextBlock == None {
        assert AllBlocks(blockSize, chunkSize) != [];
        hide AllBlocks, PoolChunk.Valid, Pool.Valid;
        if moreOnDemand && mapping.Some? {
          ch := ChainNewChunk(ch, mapping.value);
          c := c + 1;
        } else {
          ch := null;
        }
      }
    }

    /** `mpool_alloc`. */
    method Alloc(size: nat, mapping: Option<Mapping>) returns (r: Option<Pointer>, ghost c: nat)
      requires Valid() && (mapping.Some? ==> GoodMapping(mapping.value))
      modifies this, chain
      ensures Valid() && (old(Accounts()) ==> Accounts())
      ensures r.None? <==> size > blockSize || (AllFull(old(frees)) && (!moreOnDemand || mapping.None?))
      ensures r.None? ==> frees == old(frees) && chain == old(chain)
      ensures r.Some? ==> c < |chain| && r.value.chunk == chain[c] && IsLive(c, r.value.off)
      ensures r.Some? ==> !LiveIn(old(frees), c, r.value.off, blockSize, chunkSize)
      ensures r.Some? && !AllFull(old(frees)) ==> (
        && chain == old(chain) && old(frees)[c] != [] && (forall d :: 0 <= d < c ==> old(frees)[d] == [])
        && r.value.off == old(frees)[c][0] && frees == old(frees)[c := old(frees)[c][1..]])
      ensures r.Some? && AllFull(old(frees)) ==> (
        && chain == old(chain) + [r.value.chunk] && c == |old(chain)| && r.value.chunk.base == mapping.value.base
        && r.value.off == AllBlocks(blockSize, chunkSize)[0]
        && frees == old(frees) + [AllBlocks(blockSize, chunkSize)[1..]])
    {
      hide AllBlocks, PoolChunk.Valid, Linked, Distinct, Apart, Pool.GoodMapping, Accounted;
      c := 0;
      if size > blockSize {
        return None, 0;
      }
      var ch: PoolChunk?;
      ch, c := Pick(mapping);
      if ch == null {
        return None, c;
      }
      ghost var mid := frees;
      if old(Accounts()) {
        if AllFull(old(frees)) {
          ChainAccounted(old(totalAllocator), totalUser, old(frees), blockSize, chunkSize);
        }
        TakeAccounted(totalAllocator, totalUser, frees, blockSize, chunkSize, c, frees[c][1..]);
      }
      var off := TakeFrom(ch, c);
      r := Some(Pointer(ch, off));
      hide Pool.Valid;
      if AllFull(old(frees)) {
        assert frees == old(frees) + [mid[c][1..]];
      }
    }

    // -------------------------------------------------------------- freeing

    /** `mpool_get_chunk_from_addr`. */
    method GetChunkFromAddr(addr: nat) returns (r: PoolChunk?, ghost c: nat)
      requires Valid()
      ensures r == null <==>
        !PassesAlignmentTest(addr, blockSize) || forall d :: 0 <= d < |chain| ==>
          !Within(chain[d].base, addr, chunkSize)
      ensures (addr - 128) % blockSize != 0 ==> r == null
      ensures (addr - 128) % blockSize == 0 ==>
        (r == null <==> forall d :: 0 <= d < |chain| ==> !(chain[d].base < addr < chain[d].base + chunkSize))
      ensures r != null ==> c < |chain| && r == chain[c] && Within(chain[c].base, addr, chunkSize)
    {
      hide Hold, Distinct, AllApart;
      c := 0;
      if !PassesAlignmentTest(addr, blockSize) {
        return null, c;
      }
      r := firstChunk;
      while true
        invariant c < |chain| && r == chain[c]
        invariant forall d :: 0 <= d < c ==> !Within(chain[d].base, addr, chunkSize)
        decreases |chain| - c
      {
        if Within(r.base, addr, chunkSize) {
          return r, c;
        }
        if r.nextChunk == null {
          return null, c;
        }
        r := r.nextChunk;
        c := c + 1;
      }
    }

    /** `mpool_free` without its assert, for any address but that of something in a chunk that is no live block.  An
        address for which no chunk is found is ignored. */
    method Free(addr: nat) returns (done: bool, ghost c: nat, ghost off: nat)
      requires blockSize > 0 && FoundIsLive(chain, frees, addr, blockSize, chunkSize) && Valid()
      modifies this`totalUser, this`frees, chain
      ensures Valid() && chain == old(chain) && (old(Accounts()) ==> Accounts())
      ensures done <==> exists d :: Finds(chain, d, addr, blockSize, chunkSize)
      ensures done ==> TakenBack(chain, old(frees), frees, c, off, addr, blockSize, chunkSize)
      ensures !done ==> frees == old(frees)
    {
      hide AllBlocks, Linked, Distinct, PoolChunk.Valid, Accounted, AllApart, LiveIn, FoundIsLive, Finds, Hold;
      var ch;
      ch, c := FindOwner(addr);
      done, off := ch != null, 0;
      if ch != null {
        FoundWhere(chain, frees, c, addr, blockSize, chunkSize);
        off := addr - ch.base;
        GiveAccounted(c, off);
        GiveBack(ch, addr - ch.base, c);
      }
    }

    method FindOwner(addr: nat) returns (r: PoolChunk?, ghost c: nat)
      requires Valid() && blockSize > 0
      ensures r != null <==> exists d :: Finds(chain, d, addr, blockSize, chunkSize)
      ensures r != null ==> Finds(chain, c, addr, blockSize, chunkSize) && c < |chain| && r == chain[c]
    {
      r, c := GetChunkFromAddr(addr);
      hide Valid, Within, PassesAlignmentTest;
      if r != null {
        assert Finds(chain, c, addr, blockSize, chunkSize);
      }
    }

    lemma GiveAccounted(c: nat, off: nat)
      requires blockSize > 0 && c < |frees|
      ensures Accounts() ==> Accounted(totalAllocator, totalUser - blockSize, frees[c := [off] + frees[c]], blockSize,
        chunkSize)
    {
      if Accounts() {
        TakeAccounted(totalAllocator, totalUser, frees, blockSize, chunkSize, c, [off] + frees[c]);
      }
    }

    /** `mpool__mark_block_as_avail` on a block of the chunk. */
    method GiveBack(ch: PoolChunk, off: nat, ghost c: nat)
      requires Valid() && IsLive(c, off) && ch == chain[c]
      modifies this`totalUser, this`frees, ch`nextBlock, ch`cells, ch`free
      ensures Valid() && frees == old(frees)[c := [off] + old(frees)[c]]
      ensures totalUser == old(totalUser) - blockSize
    {
      hide AllBlocks, Linked, AllApart, PoolChunk.Valid;
      ch.MarkAvail(off, blockSize, chunkSize);
      totalUser := totalUser - blockSize;
      frees := frees[c := [off] + frees[c]];
    }

    // -------------------------------------------------------------- clearing

    /** The walk of `mpool_clear`, which starts every chunk afresh. */
    method InitAll()
      requires Valid()
      modifies chain
      ensures chain[0].Valid(blockSize, chunkSize) && chain[0].nextChunk == null &&
        chain[0].free == AllBlocks(blockSize, chunkSize)
    {
      hide AllBlocks, PoolChunk.Valid, Distinct, AllApart;
      var ch: PoolChunk? := firstChunk;
      ghost var c := 0;
      while ch != null
        invariant c <= |chain| && ch == (if c < |chain| then chain[c] else null)
        invariant forall d :: c <= d < |chain| ==>
          chain[d].Valid(blockSize, chunkSize) && chain[d].nextChunk == NextIn(chain, d)
        invariant c > 0 ==> (
          && chain[0].Valid(blockSize, chunkSize) && chain[0].nextChunk == null
          && chain[0].free == AllBlocks(blockSize, chunkSize))
        decreases |chain| - c
      {
        ch.AllInCells(blockSize, chunkSize);
        var tmp := ch.nextChunk;
        label before:
        ch.Init(blockSize, chunkSize);
        forall d | c < d < |chain|
          ensures chain[d].Valid(blockSize, chunkSize) && chain[d].nextChunk == NextIn(chain, d)
        {
          NotTwice(chain, c, d);
          assert old@before(chain[d].Valid(blockSize, chunkSize));
        }
        ch := tmp;
        c := c + 1;
      }
    }

    /** `mpool_clear`: every chunk starts afresh, but only the first one stays in the chain. */
    method Clear()
      requires Valid()
      modifies this`chain, this`frees, chain
      ensures Valid() && chain == [old(chain)[0]] && frees == [AllBlocks(blockSize, chunkSize)]
    {
      hide AllBlocks, PoolChunk.Valid;
      InitAll();
      chain, frees := [firstChunk], [AllBlocks(blockSize, chunkSize)];
    }
  }

  /** Allocating from a pool of one chunk until nothing is left hands out its free blocks, each of them once.
      From a new or cleared pool these are all of its blocks. */
  method AllocUntilFull(pool: Pool, size: nat) returns (out: seq<nat>)
    requires pool.Valid() && !pool.moreOnDemand && |pool.frees| == 1 && size <= pool.blockSize
    modifies pool, pool.chain
    ensures pool.Valid() && pool.frees == [[]]
    ensures out == old(pool.frees)[0] && NoDuplicates(out)
    ensures forall off :: off in AllBlocks(pool.blockSize, pool.chunkSize) ==>
      (off in out <==> !LiveIn(old(pool.frees), 0, off, pool.blockSize, pool.chunkSize))
  {
    ghost var all := pool.frees[0];
    FreesAreSound(pool);
    FreeIsNotLive(pool.frees, pool.blockSize, pool.chunkSize);
    assert all[0..] == all && all[..|all|] == all && all[|all|..] == [];
    out := [];
    var go := true;
    hide *;
    while go
      invariant pool.Valid() && pool.chain == old(pool.chain)
      invariant |out| <= |all| && out == all[..|out|] && pool.frees == [all[|out|..]]
      invariant !go ==> |out| == |all|
      decreases go, |all| - |out|
    {
      ghost var k := |out|;
      OneStackFull(all[k..]);
      var r, c := pool.Alloc(size, None);
      if r.None? {
        go := false;
      } else {
        NextOfStack(all, k, c, pool.frees, r.value.off);
        out := out + [r.value.off];
      }
    }
  }

  lemma FreeIsNotLive(frees: seq<seq<nat>>, bs: nat, size: nat)
    requires |frees| == 1 && bs > 0
    ensures forall off :: off in AllBlocks(bs, size) ==> (off in frees[0] <==> !LiveIn(frees, 0, off, bs, size))
  {
    hide AllBlocks;
  }

  lemma NextOfStack(all: seq<nat>, k: nat, c: nat, frees: seq<seq<nat>>, off: nat)
    requires k < |all| && c < 1 && off == [all[k..]][c][0] && frees == [all[k..]][c := [all[k..]][c][1..]]
    ensures all[..k] + [off] == all[..k + 1] && frees == [all[k + 1..]]
  {
  }

  lemma OneStackFull(s: seq<nat>)
    ensures AllFull([s]) <==> s == []
  {
    assert [s][0] == s;
  }

  lemma FreesAreSound(pool: Pool)
    requires pool.Valid() && |pool.frees| == 1
    ensures NoDuplicates(pool.frees[0])
  {
    assert pool.chain[0].Valid(pool.blockSize, pool.chunkSize);
  }

  // ---------------------------------------------------------------- sizes

  /** `ALIGN` in 16 bits. */
  function RoundedBlockSize(blockSize: nat): nat {
    Bits.Align(blockSize, 8) % 65536
  }

  /** The fields of a free block end before the next block. */
  ghost predicate FieldsApart(bs: nat, size: nat)
    requires bs > 0
  {
    var r := AllBlocks(bs, size);
    forall i :: 0 <= i < |r| - 1 ==> r[i] + BLOCK_FIELDS <= r[i + 1]
  }

  /** Exactly when sizes are of use, whatever they are: some block fits, and where there are several, what is written
      into a free one leaves the next one alone. */
  lemma SizesServeIff(bs: nat, size: nat)
    requires bs > 0
    ensures AllBlocks(bs, size) != [] <==> 128 + bs <= size
    ensures |AllBlocks(bs, size)| >= 2 <==> 128 + 2 * bs <= size
    ensures |AllBlocks(bs, size)| >= 2 ==> (FieldsApart(bs, size) <==> bs >= 16)
  {
    BlocksFromIs(HEADER, bs, size, 0);
    BlocksFromIs(HEADER, bs, size, 1);
    var r := AllBlocks(bs, size);
    forall i: nat | i < |r| - 1 ensures r[i + 1] == r[i] + bs {
      BlocksFromIs(HEADER, bs, size, i);
      BlocksFromIs(HEADER, bs, size, i + 1);
      OneMore(i, bs);
    }
    hide AllBlocks, BlocksFrom;
    if |r| >= 2 && FieldsApart(bs, size) {
      assert r[0] + BLOCK_FIELDS <= r[0 + 1];
    }
  }

  /** Block sizes are rounded up to multiples of eight, and the largest ones to nothing. */
  lemma RoundedBlockSizeIs(blockSize: nat)
    requires 8 <= blockSize < 65536
    ensures var bs := RoundedBlockSize(blockSize);
      if blockSize <= 65528 then bs % 8 == 0 && blockSize <= bs < blockSize + 8 else bs == 0
  {
    var q := (blockSize + 7) / 8;
    if blockSize <= 65528 {
      Bits.SmallMod(q * 8, 65536);
    } else {
      assert q == 8192;
    }
  }

  /** The asserts accept block sizes that are rounded to nothing, sizes without room for a block, and blocks that are
      smaller than what is written into them: what they accept is of use exactly if none of these is the case. */
  lemma InitServesIff(chunkSize: nat, blockSize: nat)
    requires 8 <= blockSize < chunkSize && 256 <= chunkSize < 0x1_0000_0000 && blockSize < 65536
    ensures RoundedBlockSize(blockSize) > 0 <==> blockSize <= 65528
    ensures var bs, size := RoundedBlockSize(blockSize), PageAlignU32(chunkSize);
      bs > 0 ==>
        && (AllBlocks(bs, size) != [] <==> 128 + bs <= size)
        && (|AllBlocks(bs, size)| >= 2 ==> (FieldsApart(bs, size) <==> blockSize > 8))
  {
    RoundedBlockSizeIs(blockSize);
    hide *;
    var bs := RoundedBlockSize(blockSize);
    if bs > 0 {
      SizesServeIff(bs, PageAlignU32(chunkSize));
      assert bs >= 16 <==> blockSize > 8;
    }
  }

  /** Two pairs of sizes that the asserts accept: no block fits, and the fields of a block reach into the next. */
  lemma InitAssertsDoNotSuffice()
    ensures AllBlocks(RoundedBlockSize(4000), PageAlignU32(4096)) == []
    ensures !FieldsApart(RoundedBlockSize(8), PageAlignU32(4096))
  {
    hide AllBlocks, FieldsApart;
    assert RoundedBlockSize(4000) == 4000 && RoundedBlockSize(8) == 8 && PageAlignU32(4096) == 4096;
    SizesServeIff(4000, 4096);
    SizesServeIff(8, 4096);
  }
}

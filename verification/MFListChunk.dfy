/** One chunk of the MFList allocator as an object: its header fields, the block headers inside
    it, and its bytes. */
module MFListChunk {
  import opened Blocks
  import opened Headers
  import opened Variants
  import opened ChunkCode
  import opened Sizing
  import Heap
  import Bits

  type Byte = Bits.Byte

  /** Byte `a` of a chunk belongs to some live payload. */
  ghost predicate Held(base: nat, bs: seq<Block>, a: nat) {
    exists i :: 0 <= i < |bs| && HeldBy(base, bs, i, a)
  }

  predicate HeldBy(base: nat, bs: seq<Block>, i: nat, a: nat)
    requires i < |bs|
  {
    !bs[i].avail && Off(base, bs, i) + BLOCK_HEADER <= a < Off(base, bs, i) + BLOCK_HEADER + bs[i].size
  }

  /** Headers are not payload. */
  lemma HeaderNotHeld(base: nat, bs: seq<Block>, j: nat, a: nat)
    requires j < |bs| && Off(base, bs, j) <= a < Off(base, bs, j) + BLOCK_HEADER
    ensures !Held(base, bs, a)
  {
    forall i | 0 <= i < |bs| ensures !HeldBy(base, bs, i, a) {
      if i < j {
        OffMonotone(base, bs, i, j);
      } else if j < i {
        OffMonotone(base, bs, j, i);
      }
    }
  }

  /** The payload of a free block is held by nobody. */
  lemma FreeNotHeld(base: nat, bs: seq<Block>, j: nat, a: nat)
    requires j < |bs| && bs[j].avail && Off(base, bs, j) <= a < Off(base, bs, j) + BLOCK_HEADER + bs[j].size
    ensures !Held(base, bs, a)
  {
    forall i | 0 <= i < |bs| ensures !HeldBy(base, bs, i, a) {
      if i < j {
        OffMonotone(base, bs, i, j);
      } else if j < i {
        OffMonotone(base, bs, j, i);
      }
    }
  }

  /** Overwriting a payload, and whatever stale headers lie in it, leaves the block list alone. */
  lemma PayloadIsNotHeader(h: Memory, k: Memory, base: nat, bs: seq<Block>, chunkSize: nat, i: nat)
    requires Spells(h, base, bs, chunkSize) && i < |bs|
    requires Agree(h, k, 0, Off(base, bs, i) + 1) && Agree(h, k, Off(base, bs, i + 1), chunkSize)
    ensures Spells(k, base, bs, chunkSize)
  {
    HeaderAt(h, base, bs, chunkSize, i);
    Around(h, base, bs, chunkSize, i);
    OffStep(base, bs, i);
    LastLinkOfPrefix(base, bs, i);
    EncodesOne(k, base, bs[i], Off(base, bs, i), PrevLink(base, bs, i));
    assert bs == bs[..i] + [bs[i]] + bs[i + 1..];
    assert i + 1 < |bs| ==> bs[i + 1..] != [] && Off(base, bs, i + 1) in h && Off(base, bs, i + 1) in k;
    Rewritten(h, k, base, bs[..i], [bs[i]], bs[i + 1..], At(Off(base, bs, i)), At(Off(base, bs, i)));
  }

  class ChunkObj {
    const base: nat
    const size: nat
    const categ: nat
    const bytes: array<Byte>
    var prevChunk: ChunkObj?
    var nextChunk: ChunkObj?
    var maxAvail: nat
    var headers: Memory
    ghost var blocks: seq<Block>

    ghost predicate Sound()
      reads this`headers, this`blocks
    {
      categ < CATEGORIES && bytes.Length == size && Spells(headers, base, blocks, size)
    }

    ghost predicate Valid()
      reads this`headers, this`blocks, this`maxAvail
    {
      Sound() && maxAvail == MaxAvail(blocks)
    }

    ghost function Value(): Heap.Chunk
      reads this`blocks
    {
      Heap.Chunk(base, size, categ, blocks)
    }

    /** `mflist__init_chunk` on a region the kernel mapped at `base`. */
    constructor (base: nat, size: nat, categ: nat)
      requires size >= CHUNK_HEADER + 2 * BLOCK_HEADER && categ < CATEGORIES
      ensures Valid() && fresh(bytes)
      ensures this.base == base && this.size == size && this.categ == categ
      ensures prevChunk == null && nextChunk == null
      ensures blocks == InitialBlocks(base, size)
    {
      this.base, this.size, this.categ := base, size, categ;
      bytes := new Byte[size](_ => 0);
      prevChunk, nextChunk := null, null;
      headers := InitHeaders(base, size, Repaired);
      maxAvail := size - FirstBlock(base) - BLOCK_HEADER; // Repair
      blocks := InitialBlocks(base, size);
      new;
      InitSpellsIff(base, size, Repaired);
      OneBlock(blocks[0], 0);
    }

    /** The code's own integrity check: a walk over whatever the headers say. */
    method AssertIntegrity() returns (ok: bool)
      ensures ok == Integrity(headers, base, size, maxAvail)
    {
      var block := At(FirstBlock(base));
      var max := 0;
      ok := true;
      while block != NoBlock && ok
        invariant ok && block.At? ==>
          (Integrity(headers, base, size, maxAvail) <==>
             WalkOk(headers, base, size, block.off) && Max(max, WalkMax(headers, size, block.off)) == maxAvail)
        invariant ok && block == NoBlock ==> (Integrity(headers, base, size, maxAvail) <==> max == maxAvail)
        invariant !ok ==> !Integrity(headers, base, size, maxAvail)
        decreases ok, if block.At? then (if block.off < size then size - block.off + 1 else 1) else 0
      {
        var off := block.off;
        if off !in headers || headers[off].parent != base || off + BLOCK_HEADER > size ||
          (base + off) % BLOCK_HEADER != 0 {
          ok := false;
        } else {
          if headers[off].avail && headers[off].size > max {
            max := headers[off].size;
          }
          block := NextBlock(headers, size, off);
          if block.At? && (block.off !in headers || headers[block.off].prev != At(off)) {
            ok := false;
          }
        }
      }
      if ok && max != maxAvail {
        ok := false;
      }
    }

    /** Writing a header overwrites the bytes it occupies. */
    method WriteHeader(off: nat, h: Header)
      requires bytes.Length == size && off + BLOCK_HEADER <= size
      modifies this`headers, bytes
      ensures headers == old(headers)[off := h]
      ensures forall a :: 0 <= a < size && !(off <= a < off + BLOCK_HEADER) ==> bytes[a] == old(bytes[a])
    {
      headers := headers[off := h];
      for a := off to off + BLOCK_HEADER
        invariant headers == old(headers)[off := h]
        invariant forall a :: 0 <= a < size && !(off <= a < off + BLOCK_HEADER) ==> bytes[a] == old(bytes[a])
      {
        var junk: Byte := *;
        bytes[a] := junk;
      }
    }

    /** Repair: the block after `off`, if any, links back to `off`.  The code leaves this out. */
    method RelinkNext(off: nat)
      requires bytes.Length == size && off in headers
      modifies this`headers, bytes
      ensures headers == Relink(old(headers), size, off)
      ensures var next := NextBlock(old(headers), size, off);
        forall a :: 0 <= a < size && !(next.At? && next.off <= a < next.off + BLOCK_HEADER) ==>
          bytes[a] == old(bytes[a])
    {
      var next := NextBlock(headers, size, off);
      if next.At? && next.off in headers {
        WriteHeader(next.off, headers[next.off].(prev := At(off)));
      }
    }

    /** `memclr` of `[lo, hi)`: whatever stale headers lay there are gone. */
    method Clear(lo: nat, hi: nat)
      requires bytes.Length == size && lo <= hi <= size
      modifies this`headers, bytes
      ensures headers == map o | o in old(headers) && !(lo <= o < hi) :: old(headers)[o]
      ensures forall a :: 0 <= a < size ==> bytes[a] == if lo <= a < hi then 0 else old(bytes[a])
    {
      headers := map o | o in headers && !(lo <= o < hi) :: headers[o];
      for a := lo to hi
        invariant headers == map o | o in old(headers) && !(lo <= o < hi) :: old(headers)[o]
        invariant forall b :: 0 <= b < size ==> bytes[b] == if lo <= b < a then 0 else old(bytes[b])
      {
        bytes[a] := 0;
      }
    }

    // ---------------------------------------------------------------- splitting

    /** `mflist__suballoc_fork` on the block at `off`, without the user total; the cached maximum is left stale. */
    method SuballocFork(off: nat, n: nat, zeroInitialize: bool, ghost i: nat)
      requires Sound() && i < |blocks| && off == Off(base, blocks, i) && Fits(blocks[i], n)
      requires n > 0 && n % BLOCK_HEADER == 0
      modifies this`headers, this`blocks, bytes
      ensures Sound() && blocks == Fork(old(blocks), i, n, size, Heap.Bounded(categ))
      ensures off in headers && headers[off].size == blocks[i].size
      ensures forall a :: 0 <= a < size && Held(base, old(blocks), a) ==> bytes[a] == old(bytes[a])
      ensures off + BLOCK_HEADER + blocks[i].size <= size
      ensures zeroInitialize ==> forall a :: off + BLOCK_HEADER <= a < off + BLOCK_HEADER + blocks[i].size ==>
        bytes[a] == 0
    {
      ForkFits(headers, base, blocks, size, i, n, Heap.Bounded(categ));
      SplitHeaders(off, n, i);
      ForkRefines(old(headers), base, blocks, size, i, n, Heap.Bounded(categ));
      blocks := Fork(blocks, i, n, size, Heap.Bounded(categ));
      ForkShape(base, old(blocks), i, n, size, Heap.Bounded(categ));
      HeaderAt(headers, base, blocks, size, i);
      EndInChunk(headers, base, blocks, size, i);
      OffStep(base, blocks, i);
      if zeroInitialize {
        label L:
        Clear(off + BLOCK_HEADER, off + BLOCK_HEADER + headers[off].size);
        PayloadIsNotHeader(old@L(headers), headers, base, blocks, size, i);
        HeaderAt(headers, base, blocks, size, i);
        forall a | 0 <= a < size && Held(base, old(blocks), a) ensures bytes[a] == old(bytes[a]) {
          if Off(base, old(blocks), i) <= a < Off(base, old(blocks), i) + BLOCK_HEADER + old(blocks)[i].size {
            FreeNotHeld(base, old(blocks), i, a);
          }
        }
      }
    }

    /** The header writes of a split: they stay inside the free block, but for the repaired back link. */
    method SplitHeaders(off: nat, n: nat, ghost i: nat)
      requires Sound() && i < |blocks| && off == Off(base, blocks, i) && Fits(blocks[i], n)
      requires off in headers && headers[off] == Header(base, PrevLink(base, blocks, i), blocks[i].size, true)
      requires off + BLOCK_HEADER + blocks[i].size <= size
      requires i + 1 < |blocks| ==> Off(base, blocks, i + 1) == off + BLOCK_HEADER + blocks[i].size
      requires i + 1 == |blocks| ==> off + BLOCK_HEADER + blocks[i].size == size
      modifies this`headers, bytes
      ensures headers == ForkHeaders(old(headers), base, size, off, n, Heap.Bounded(categ), Repaired)
      ensures forall a :: 0 <= a < size && Held(base, blocks, a) ==> bytes[a] == old(bytes[a])
    {
      forall a | off <= a < off + 2 * BLOCK_HEADER + blocks[i].size && a < size ensures !Held(base, blocks, a) {
        if a < off + BLOCK_HEADER + blocks[i].size {
          FreeNotHeld(base, blocks, i, a);
        } else {
          HeaderNotHeld(base, blocks, i + 1, a);
        }
      }
      var remainder := headers[off].size - n;
      var shouldFit := categ != DEDICATED && remainder > BLOCK_HEADER && remainder > size / 10;
      if shouldFit {
        var tail := off + BLOCK_HEADER + n;
        if tail + BLOCK_HEADER < size {
          WriteHeader(tail, Header(base, At(off), remainder - BLOCK_HEADER, true));
          RelinkNext(tail); // Repair
        }
      } else {
        remainder := 0;
      }
      WriteHeader(off, headers[off].(avail := false, size := headers[off].size - remainder));
    }

    // ---------------------------------------------------------------- serving a request

    /** The part of `mflist_alloc1` that works inside the chosen chunk: find the lowest fitting block, split
        it, and go on to the end of the chunk to renew the cached maximum. */
    method Carve(n: nat, zeroInitialize: bool) returns (off: nat, served: nat)
      requires Valid() && 0 < n <= maxAvail && n % BLOCK_HEADER == 0
      modifies this`headers, this`blocks, this`maxAvail, bytes
      ensures Valid() && FirstFit(old(blocks), n) < |old(blocks)|
      ensures var i := FirstFit(old(blocks), n);
        && blocks == Fork(old(blocks), i, n, size, Heap.Bounded(categ))
        && i < |blocks| && off == Off(base, blocks, i) == Off(base, old(blocks), i) && served == blocks[i].size
      ensures forall a :: 0 <= a < size && Held(base, old(blocks), a) ==> bytes[a] == old(bytes[a])
      ensures served >= n && off + BLOCK_HEADER + served <= size
      ensures zeroInitialize ==> forall a :: off + BLOCK_HEADER <= a < off + BLOCK_HEADER + served ==> bytes[a] == 0
    {
      var max: nat;
      ghost var i;
      off, max, i := FindFit(n);
      ghost var before := blocks;
      SuballocFork(off, n, zeroInitialize, i);
      served := headers[off].size;
      ForkShape(base, before, i, n, size, Heap.Bounded(categ));
      assert blocks[..i] == before[..i];
      Rescan(off, max, i);
    }

    /** First loop: the lowest fitting block, and the maximum over the free blocks passed on the way. */
    method FindFit(n: nat) returns (off: nat, max: nat, ghost i: nat)
      requires Valid() && 0 < n <= maxAvail
      ensures i == FirstFit(blocks, n) < |blocks| && off == Off(base, blocks, i)
      ensures max == MaxAvail(blocks[..i])
    {
      var block := At(FirstBlock(base));
      SpellsPasses(headers, base, blocks, size);
      FitIffMaxAvail(blocks, n);
      max, i := 0, 0;
      var found := false;
      while !found && block != NoBlock
        invariant i <= |blocks| && block == if i < |blocks| then At(Off(base, blocks, i)) else NoBlock
        invariant forall x :: 0 <= x < i ==> !Fits(blocks[x], n)
        invariant max == MaxAvail(blocks[..i])
        invariant found ==> i < |blocks| && Fits(blocks[i], n)
        decreases |blocks| - i, !found
      {
        HeaderAt(headers, base, blocks, size, i);
        var header := headers[block.off];
        if header.avail && header.size >= n {
          found := true;
        } else {
          if header.avail && header.size > max {
            max := header.size;
          }
          MaxAvailStep(blocks, i);
          block := NextBlock(headers, size, block.off);
          i := i + 1;
        }
      }
      off := block.off;
    }

    /** Second loop: from the served block on, to renew the cached maximum. */
    method Rescan(off: nat, maxSoFar: nat, ghost i: nat)
      requires Sound() && i < |blocks| && off == Off(base, blocks, i) && maxSoFar == MaxAvail(blocks[..i])
      modifies this`maxAvail
      ensures Valid()
    {
      var block, max := At(off), maxSoFar;
      ghost var j := i;
      while block != NoBlock
        invariant j <= |blocks| && block == if j < |blocks| then At(Off(base, blocks, j)) else NoBlock
        invariant max == MaxAvail(blocks[..j])
        decreases |blocks| - j
      {
        HeaderAt(headers, base, blocks, size, j);
        var header := headers[block.off];
        if header.avail && header.size > max {
          max := header.size;
        }
        MaxAvailStep(blocks, j);
        block := NextBlock(headers, size, block.off);
        j := j + 1;
      }
      assert blocks[..|blocks|] == blocks;
      maxAvail := max;
    }

    // ---------------------------------------------------------------- merging

    /** The part of `mflist__free_block_and_merge` that works inside a chunk of a bounded category. */
    method Merge(off: nat, ghost i: nat) returns (merged: nat)
      requires Valid() && i < |blocks| && off == Off(base, blocks, i) && !blocks[i].avail
      modifies this`headers, this`blocks, this`maxAvail, bytes
      ensures Valid() && blocks == Release(old(blocks), i)
      ensures merged == Off(base, old(blocks), RunStart(old(blocks), i))
      ensures forall a :: 0 <= a < size && Held(base, old(blocks), a) && Held(base, blocks, a) ==>
        bytes[a] == old(bytes[a])
    {
      ghost var h0 := headers;
      var combined: nat;
      combined, merged := MergeHeaders(off, i);
      ReleaseRefines(h0, base, blocks, size, i);
      ReleaseLive(blocks, i, base);
      blocks := Release(blocks, i);
      if combined > maxAvail {
        maxAvail := combined;
      }
    }

    /** The four cases, each writing one header and, as repaired, one back link. */
    method MergeHeaders(off: nat, ghost i: nat) returns (combined: nat, merged: nat)
      requires Sound() && i < |blocks| && off == Off(base, blocks, i) && !blocks[i].avail
      modifies this`headers, bytes
      ensures off in old(headers) && headers == ReleaseHeaders(old(headers), size, off, Repaired)
      ensures combined == CombinedSize(blocks, i) && merged == Off(base, blocks, RunStart(blocks, i))
      ensures forall a :: 0 <= a < size && Held(base, Release(blocks, i), a) ==> bytes[a] == old(bytes[a])
    {
      hide Spells;
      ReadAround(headers, base, blocks, size, i);
      MergeTouchesHeaders(headers, base, blocks, size, i);
      ghost var start, end := Off(base, blocks, RunStart(blocks, i)), Off(base, blocks, RunEnd(blocks, i));
      var block := headers[off];
      var prev, next := block.prev, NextBlock(headers, size, off);
      var nextAvail := next != NoBlock && headers[next.off].avail;
      combined := block.size;
      if nextAvail {
        combined := combined + BLOCK_HEADER + headers[next.off].size;
      }
      if prev != NoBlock && headers[prev.off].avail {
        combined := headers[prev.off].size + BLOCK_HEADER + combined;
        WriteHeader(prev.off, headers[prev.off].(size := combined));
        merged := prev.off;
        RelinkNext(merged); // Repair
      } else {
        WriteHeader(off, block.(avail := true, size := combined));
        merged := off;
        if nextAvail {
          RelinkNext(merged); // Repair
        }
      }
    }
  }

  /** The headers a merge writes are headers of the merged list, so nobody's payload. */
  lemma MergeTouchesHeaders(h: Memory, base: nat, bs: seq<Block>, chunkSize: nat, i: nat)
    requires Spells(h, base, bs, chunkSize) && i < |bs| && !bs[i].avail
    ensures var start, end := Off(base, bs, RunStart(bs, i)), Off(base, bs, RunEnd(bs, i));
      && start + BLOCK_HEADER <= start + BLOCK_HEADER + CombinedSize(bs, i) == end <= chunkSize
      && (forall a :: start <= a < start + BLOCK_HEADER ==> !Held(base, Release(bs, i), a))
      && (end + BLOCK_HEADER < chunkSize ==>
        forall a :: end <= a < end + BLOCK_HEADER ==> !Held(base, Release(bs, i), a))
  {
    var p, q := RunStart(bs, i), RunEnd(bs, i);
    RunOffsets(h, base, bs, chunkSize, i);
    ReleaseTail(base, bs, i);
    forall a | Off(base, bs, p) <= a < Off(base, bs, p) + BLOCK_HEADER ensures !Held(base, Release(bs, i), a) {
      HeaderNotHeld(base, Release(bs, i), p, a);
    }
    if q < |bs| {
      forall a | Off(base, bs, q) <= a < Off(base, bs, q) + BLOCK_HEADER ensures !Held(base, Release(bs, i), a) {
        HeaderNotHeld(base, Release(bs, i), p + 1, a);
      }
    }
  }

  lemma MaxAvailStep(bs: seq<Block>, i: nat)
    requires i < |bs|
    ensures MaxAvail(bs[..i + 1]) == Max(MaxAvail(bs[..i]), if bs[i].avail then bs[i].size else 0)
  {
    assert bs[..i + 1] == bs[..i] + [bs[i]];
    MaxAvailConcat(bs[..i], [bs[i]]);
    OneBlock(bs[i], 0);
  }

  lemma ForkFits(h: Memory, base: nat, bs: seq<Block>, chunkSize: nat, i: nat, n: nat, bounded: bool)
    requires Spells(h, base, bs, chunkSize) && i < |bs| && Fits(bs[i], n)
    ensures Off(base, bs, i) in h && h[Off(base, bs, i)] == Header(base, PrevLink(base, bs, i), bs[i].size, true)
    ensures Off(base, bs, i) + BLOCK_HEADER + bs[i].size <= chunkSize
    ensures i + 1 < |bs| ==> Off(base, bs, i + 1) == Off(base, bs, i) + BLOCK_HEADER + bs[i].size
    ensures i + 1 == |bs| ==> Off(base, bs, i) + BLOCK_HEADER + bs[i].size == chunkSize
  {
    HeaderAt(h, base, bs, chunkSize, i);
    EndInChunk(h, base, bs, chunkSize, i);
    OffStep(base, bs, i);
    assert bs[..|bs|] == bs;
  }

  lemma EndInChunk(h: Memory, base: nat, bs: seq<Block>, chunkSize: nat, i: nat)
    requires Spells(h, base, bs, chunkSize) && i < |bs|
    ensures Off(base, bs, i + 1) <= chunkSize
  {
    Around(h, base, bs, chunkSize, i);
  }

  lemma ForkShape(base: nat, bs: seq<Block>, i: nat, n: nat, chunkSize: nat, bounded: bool)
    requires i < |bs| && Fits(bs[i], n)
    ensures var cs := Fork(bs, i, n, chunkSize, bounded);
      i < |cs| && Off(base, cs, i) == Off(base, bs, i) && !cs[i].avail && n <= cs[i].size <= bs[i].size
  {
    assert Fork(bs, i, n, chunkSize, bounded)[..i] == bs[..i];
  }
}

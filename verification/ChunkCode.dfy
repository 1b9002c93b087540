/** Splitting and merging as the code does it, on headers in memory. */
module ChunkCode {
  import opened Blocks
  import opened Headers
  import opened Variants

  // ---------------------------------------------------------------- initialising

  /** `mflist__init_chunk`: as written, the size of the first block ignores how far its start was rounded up. */
  function InitHeaders(base: nat, chunkSize: nat, init: Variant): (h: Memory)
    requires chunkSize >= CHUNK_HEADER + 2 * BLOCK_HEADER
  {
    var front := if init.AsWritten? then CHUNK_HEADER else FirstBlock(base);  // Repair: subtract where it starts
    map[FirstBlock(base) := Header(base, NoBlock, chunkSize - front - BLOCK_HEADER, true)]
  }

  /** The first block stays inside the chunk exactly when the rounding is a no-op; as repaired it always does. */
  lemma InitFitsIffGoodBase(base: nat, chunkSize: nat, init: Variant)
    requires chunkSize >= CHUNK_HEADER + 2 * BLOCK_HEADER
    ensures var first := FirstBlock(base);
      first + BLOCK_HEADER + InitHeaders(base, chunkSize, init)[first].size <= chunkSize <==>
        init.Repaired? || GoodBase(base)
  {
  }

  /** On a page of 4096 bytes the rounding is a no-op for one base in three. */
  lemma GoodBaseOfPage(page: nat)
    ensures GoodBase(4096 * page) <==> page % 3 == 1
  {
    GoodBaseIff(4096 * page);
    hide *;
    var q, r := page / 3, page % 3;
    assert page == 3 * q + r;
    assert 4096 * page + CHUNK_HEADER == BLOCK_HEADER * (512 * q) + (4096 * r + CHUNK_HEADER);
  }

  lemma GoodBaseIff(base: nat)
    ensures GoodBase(base) <==> (base + CHUNK_HEADER) % BLOCK_HEADER == 0
  {
  }

  /** The initialised headers spell out the single free block exactly if it stays inside the chunk. */
  lemma InitSpellsIff(base: nat, chunkSize: nat, init: Variant)
    requires chunkSize >= CHUNK_HEADER + 2 * BLOCK_HEADER
    ensures Spells(InitHeaders(base, chunkSize, init), base, InitialBlocks(base, chunkSize), chunkSize) <==>
      init.Repaired? || GoodBase(base)
  {
    var h, bs, first := InitHeaders(base, chunkSize, init), InitialBlocks(base, chunkSize), FirstBlock(base);
    assert bs == [bs[0]];
    OneBlock(bs[0], base + first);
    if h[first].size == bs[0].size {
      EncodesOne(h, base, bs[0], first, NoBlock);
    }
    assert Spells(h, base, bs, chunkSize) ==> h[first].size == bs[0].size;
  }

  // ---------------------------------------------------------------- the missing statement

  /** Points the back link of the block after `off` at `off`. */
  function Relink(h: Memory, chunkSize: nat, off: nat): Memory
    requires off in h
  {
    match NextBlock(h, chunkSize, off)
    case NoBlock => h
    case At(m) => if m in h then h[m := h[m].(prev := At(off))] else h
  }

  function MaybeRelink(h: Memory, chunkSize: nat, off: nat, links: Variant): Memory
    requires off in h
  {
    if links.Repaired? then Relink(h, chunkSize, off) else h
  }

  // ---------------------------------------------------------------- splitting

  /** `mflist__suballoc_fork`, up to the totals and the zeroing. */
  function ForkHeaders(h: Memory, base: nat, chunkSize: nat, off: nat, n: nat, bounded: bool, links: Variant): Memory
    requires off in h && h[off].size >= n
  {
    var block := h[off];
    var rest := block.size - n;
    if bounded && rest > BLOCK_HEADER && rest > chunkSize / 10 then
      var tail := off + BLOCK_HEADER + n;
      var h1 := if tail + BLOCK_HEADER < chunkSize
                then MaybeRelink(h[tail := Header(base, At(off), rest - BLOCK_HEADER, true)], chunkSize, tail, links)
                else h;
      h1[off := block.(avail := false, size := n)]
    else
      h[off := block.(avail := false)]
  }

  /** With the links repaired, splitting in memory is splitting the block list. */
  lemma ForkRefines(h: Memory, base: nat, bs: seq<Block>, chunkSize: nat, i: nat, n: nat, bounded: bool)
    requires Spells(h, base, bs, chunkSize)
    requires i < |bs| && Fits(bs[i], n) && n > 0 && n % BLOCK_HEADER == 0
    ensures Off(base, bs, i) in h && h[Off(base, bs, i)].size >= n
    ensures Spells(ForkHeaders(h, base, chunkSize, Off(base, bs, i), n, bounded, Repaired), base,
                   Fork(bs, i, n, chunkSize, bounded), chunkSize)
  {
    HeaderAt(h, base, bs, chunkSize, i);
    ForkKeeps(bs, i, n, chunkSize, bounded, base);
    if Splits(bs[i], n, chunkSize, bounded) {
      ForkEncodesSplit(h, base, bs, chunkSize, i, n);
    } else {
      ForkEncodesWhole(h, base, bs, chunkSize, i, n, bounded);
    }
  }

  lemma Around(h: Memory, base: nat, bs: seq<Block>, chunkSize: nat, i: nat)
    requires Spells(h, base, bs, chunkSize) && i < |bs|
    ensures Encodes(h, base, bs[..i], FirstBlock(base), NoBlock)
    ensures Encodes(h, base, bs[i + 1..], Off(base, bs, i + 1), At(Off(base, bs, i)))
    ensures Off(base, bs, i + 1) + Span(bs[i + 1..]) == chunkSize
  {
    EncodesSplit(h, base, bs, i);
    EncodesSplit(h, base, bs, i + 1);
    assert bs == bs[..i + 1] + bs[i + 1..];
    SpanConcat(bs[..i + 1], bs[i + 1..]);
  }

  /** Rewriting one run of headers, and the back link of the block after it, rewrites the block list. */
  lemma Rewritten(h: Memory, k: Memory, base: nat, a: seq<Block>, m: seq<Block>, b: seq<Block>, prev: Link, link: Link)
    requires Encodes(h, base, a, FirstBlock(base), NoBlock) && Agree(h, k, 0, FirstBlock(base) + Span(a))
    requires Encodes(k, base, m, FirstBlock(base) + Span(a), LastLink(a, FirstBlock(base), NoBlock))
    requires LastLink(m, FirstBlock(base) + Span(a), LastLink(a, FirstBlock(base), NoBlock)) == link
    requires var end := FirstBlock(base) + Span(a) + Span(m);
      && Encodes(h, base, b, end, prev) && Agree(h, k, end + 1, end + Span(b))
      && (b != [] ==> end in k && k[end] == h[end].(prev := link))
    ensures Encodes(k, base, a + m + b, FirstBlock(base), NoBlock)
  {
    hide Encodes, Span;
    EncodesFrame(h, k, base, a, FirstBlock(base), NoBlock);
    EncodesRelinked(h, k, base, b, FirstBlock(base) + Span(a) + Span(m), prev, link);
    EncodesConcat(k, base, a, m + b, FirstBlock(base), NoBlock);
    EncodesConcat(k, base, m, b, FirstBlock(base) + Span(a), LastLink(a, FirstBlock(base), NoBlock));
    assert a + m + b == a + (m + b);
  }

  lemma EncodesOne(h: Memory, base: nat, x: Block, off: nat, prev: Link)
    requires off in h && h[off] == Header(base, prev, x.size, x.avail)
    ensures Encodes(h, base, [x], off, prev) && LastLink([x], off, prev) == At(off)
    ensures Span([x]) == BLOCK_HEADER + x.size
  {
  }

  lemma ForkEncodesWhole(h: Memory, base: nat, bs: seq<Block>, chunkSize: nat, i: nat, n: nat, bounded: bool)
    requires Spells(h, base, bs, chunkSize)
    requires i < |bs| && Fits(bs[i], n) && !Splits(bs[i], n, chunkSize, bounded)
    requires Off(base, bs, i) in h
    requires h[Off(base, bs, i)] == Header(base, PrevLink(base, bs, i), bs[i].size, bs[i].avail)
    ensures Encodes(ForkHeaders(h, base, chunkSize, Off(base, bs, i), n, bounded, Repaired), base,
                    Fork(bs, i, n, chunkSize, bounded), FirstBlock(base), NoBlock)
  {
    var off := Off(base, bs, i);
    var k := ForkHeaders(h, base, chunkSize, off, n, bounded, Repaired);
    var a, b, m := bs[..i], bs[i + 1..], Block(bs[i].size, false);
    Around(h, base, bs, chunkSize, i);
    OffStep(base, bs, i);
    LastLinkOfPrefix(base, bs, i);
    EncodesOne(k, base, m, off, PrevLink(base, bs, i));
    Rewritten(h, k, base, a, [m], b, At(off), At(off));
  }

  lemma EncodesTwo(h: Memory, base: nat, x: Block, y: Block, off: nat, prev: Link)
    requires off in h && h[off] == Header(base, prev, x.size, x.avail)
    requires var next := off + BLOCK_HEADER + x.size; next in h && h[next] == Header(base, At(off), y.size, y.avail)
    ensures Encodes(h, base, [x, y], off, prev)
    ensures LastLink([x, y], off, prev) == At(off + BLOCK_HEADER + x.size)
    ensures Span([x, y]) == 2 * BLOCK_HEADER + x.size + y.size
  {
    assert [x, y][1..] == [y] && [y][1..] == [];
    OneBlock(x, 0);
    LastLinkIs([x], y, off, prev);
    assert [x] + [y] == [x, y];
    OneBlock(y, 0); TwoBlocks(x, y, 0);
  }

  /** Memory after a split, read back field by field. */
  lemma ForkMemory(h: Memory, base: nat, chunkSize: nat, off: nat, n: nat, end: nat)
    requires off in h && h[off].size >= n && end == off + BLOCK_HEADER + h[off].size <= chunkSize
    requires h[off].size - n > BLOCK_HEADER && h[off].size - n > chunkSize / 10
    requires end + BLOCK_HEADER < chunkSize ==> end in h
    ensures var k := ForkHeaders(h, base, chunkSize, off, n, true, Repaired);
      var tail := off + BLOCK_HEADER + n;
      && off in k && k[off] == h[off].(avail := false, size := n)
      && tail in k && k[tail] == Header(base, At(off), h[off].size - n - BLOCK_HEADER, true)
      && (end + BLOCK_HEADER < chunkSize ==> end in k && k[end] == h[end].(prev := At(tail)))
      && Agree(h, k, 0, off) && Agree(h, k, end + 1, chunkSize)
      && ForkHeaders(h, base, chunkSize, off, n, true, AsWritten)
         == if end + BLOCK_HEADER < chunkSize then k[end := k[end].(prev := h[end].prev)] else k
  {
  }

  lemma ForkEncodesSplit(h: Memory, base: nat, bs: seq<Block>, chunkSize: nat, i: nat, n: nat)
    requires Spells(h, base, bs, chunkSize)
    requires i < |bs| && Fits(bs[i], n) && Splits(bs[i], n, chunkSize, true)
    requires Off(base, bs, i) in h
    requires h[Off(base, bs, i)] == Header(base, PrevLink(base, bs, i), bs[i].size, bs[i].avail)
    ensures Encodes(ForkHeaders(h, base, chunkSize, Off(base, bs, i), n, true, Repaired), base,
                    Fork(bs, i, n, chunkSize, true), FirstBlock(base), NoBlock)
  {
    hide Encodes, LastLink, ForkHeaders;
    var off, end := Off(base, bs, i), Off(base, bs, i + 1);
    var tail := off + BLOCK_HEADER + n;
    var k := ForkHeaders(h, base, chunkSize, off, n, true, Repaired);
    var a, b := bs[..i], bs[i + 1..];
    var m, r := Block(n, false), Block(bs[i].size - n - BLOCK_HEADER, true);
    Around(h, base, bs, chunkSize, i);
    OffStep(base, bs, i);
    LastLinkOfPrefix(base, bs, i);
    assert b != [] ==> b[0] in bs && b[0].size > 0;
    assert Off(base, bs, i + 1) + Span(b) == chunkSize && (b != [] ==> end in h && Span(b) > BLOCK_HEADER);
    ForkMemory(h, base, chunkSize, off, n, end);
    EncodesTwo(k, base, m, r, off, PrevLink(base, bs, i));
    Rewritten(h, k, base, a, [m, r], b, At(off), At(tail));
  }

  /** Exactly when splitting as written breaks the check: it splits a block that is not the last. */
  lemma ForkAsWrittenIntact(h: Memory, base: nat, bs: seq<Block>, chunkSize: nat, i: nat, n: nat, bounded: bool)
    requires Spells(h, base, bs, chunkSize)
    requires i < |bs| && Fits(bs[i], n) && n > 0 && n % BLOCK_HEADER == 0
    ensures Off(base, bs, i) in h && h[Off(base, bs, i)].size >= n
    ensures Integrity(ForkHeaders(h, base, chunkSize, Off(base, bs, i), n, bounded, AsWritten), base, chunkSize,
                      MaxAvail(Fork(bs, i, n, chunkSize, bounded)))
       <==> !Splits(bs[i], n, chunkSize, bounded)
            || NextBlock(h, chunkSize, Off(base, bs, i)) == NoBlock
  {
    var off, end := Off(base, bs, i), Off(base, bs, i + 1);
    var cs := Fork(bs, i, n, chunkSize, bounded);
    HeaderAt(h, base, bs, chunkSize, i);
    var k := ForkHeaders(h, base, chunkSize, off, n, bounded, Repaired);
    ForkRefines(h, base, bs, chunkSize, i, n, bounded);
    SpellsPasses(k, base, cs, chunkSize);
    if Splits(bs[i], n, chunkSize, bounded) {
      OffStep(base, bs, i);
      Around(h, base, bs, chunkSize, i);
      if i + 1 < |bs| {
        HeaderAt(h, base, bs, chunkSize, i + 1);
        ForkMemory(h, base, chunkSize, off, n, end);
        ForkTail(base, bs, i, n, chunkSize);
        BackLinkIff(k, base, cs, chunkSize, i + 2, At(off));
      } else {
        ForkMemory(h, base, chunkSize, off, n, end);
      }
    }
  }

  /** The blocks after a split one keep their offsets. */
  lemma ForkTail(base: nat, bs: seq<Block>, i: nat, n: nat, chunkSize: nat)
    requires i < |bs| && Fits(bs[i], n) && Splits(bs[i], n, chunkSize, true)
    ensures |Fork(bs, i, n, chunkSize, true)| == |bs| + 1
    ensures Off(base, Fork(bs, i, n, chunkSize, true), i + 1) == Off(base, bs, i) + BLOCK_HEADER + n
    ensures Off(base, Fork(bs, i, n, chunkSize, true), i + 2) == Off(base, bs, i + 1)
  {
    var m, r := Block(n, false), Block(bs[i].size - n - BLOCK_HEADER, true);
    var cs := Fork(bs, i, n, chunkSize, true);
    assert cs[..i] == bs[..i] && cs[i] == m && cs[i + 1] == r;
    OffStep(base, cs, i);
    OffStep(base, cs, i + 1);
    OffStep(base, bs, i);
  }

  // ---------------------------------------------------------------- merging

  /** The four cases of `mflist__free_block_and_merge`, up to the totals. */
  function ReleaseHeaders(h: Memory, chunkSize: nat, off: nat, links: Variant): Memory
    requires off in h
  {
    var next := NextBlock(h, chunkSize, off);
    var nextAvail := next.At? && next.off in h && h[next.off].avail;
    var extra := if nextAvail then BLOCK_HEADER + h[next.off].size else 0;
    var prev := h[off].prev;
    if prev.At? && prev.off in h && h[prev.off].avail then
      var p := prev.off;
      MaybeRelink(h[p := h[p].(size := h[p].size + BLOCK_HEADER + h[off].size + extra)], chunkSize, p, links)
    else
      var h1 := h[off := h[off].(avail := true, size := h[off].size + extra)];
      if nextAvail then MaybeRelink(h1, chunkSize, off, links) else h1
  }

  /** All four cases write the merged size into one header, and all but one join it to another block. */
  function MergeAt(h: Memory, chunkSize: nat, start: nat, combined: nat, merged: bool, links: Variant): Memory
    requires start in h
  {
    var h1 := h[start := h[start].(size := combined, avail := true)];
    if merged then MaybeRelink(h1, chunkSize, start, links) else h1
  }

  lemma ReleaseIsMerge(h: Memory, base: nat, bs: seq<Block>, chunkSize: nat, i: nat, links: Variant)
    requires Spells(h, base, bs, chunkSize) && i < |bs| && !bs[i].avail
    ensures Off(base, bs, i) in h && Off(base, bs, RunStart(bs, i)) in h
    ensures ReleaseHeaders(h, chunkSize, Off(base, bs, i), links)
         == MergeAt(h, chunkSize, Off(base, bs, RunStart(bs, i)), CombinedSize(bs, i),
                    PrevFree(bs, i) || NextFree(bs, i), links)
  {
    hide Spells, Off;
    ReadAround(h, base, bs, chunkSize, i);
  }

  /** What a free reads: its own header and those of its two neighbours. */
  lemma ReadAround(h: Memory, base: nat, bs: seq<Block>, chunkSize: nat, i: nat)
    requires Spells(h, base, bs, chunkSize) && i < |bs|
    ensures var off := Off(base, bs, i);
      && off in h && h[off] == Header(base, PrevLink(base, bs, i), bs[i].size, bs[i].avail)
      && NextBlock(h, chunkSize, off) == if i + 1 < |bs| then At(Off(base, bs, i + 1)) else NoBlock
    ensures i > 0 ==> (
      var off := Off(base, bs, i - 1);
      && PrevLink(base, bs, i) == At(off)
      && off in h && h[off] == Header(base, PrevLink(base, bs, i - 1), bs[i - 1].size, bs[i - 1].avail))
    ensures i + 1 < |bs| ==> (
      var off := Off(base, bs, i + 1);
      && off in h && h[off] == Header(base, At(Off(base, bs, i)), bs[i + 1].size, bs[i + 1].avail))
  {
    HeaderAt(h, base, bs, chunkSize, i);
    if i > 0 {
      HeaderAt(h, base, bs, chunkSize, i - 1);
    }
    if i + 1 < |bs| {
      HeaderAt(h, base, bs, chunkSize, i + 1);
    }
  }

  /** Memory after a merge, read back field by field. */
  lemma MergeMemory(h: Memory, chunkSize: nat, start: nat, combined: nat, merged: bool, end: nat)
    requires start in h && end == start + BLOCK_HEADER + combined <= chunkSize
    requires end + BLOCK_HEADER < chunkSize ==> end in h && (!merged ==> h[end].prev == At(start))
    ensures var k := MergeAt(h, chunkSize, start, combined, merged, Repaired);
      && start in k && k[start] == h[start].(size := combined, avail := true)
      && (end + BLOCK_HEADER < chunkSize ==> end in k && k[end] == h[end].(prev := At(start)))
      && Agree(h, k, 0, start) && Agree(h, k, end + 1, chunkSize)
      && MergeAt(h, chunkSize, start, combined, merged, AsWritten)
         == if end + BLOCK_HEADER < chunkSize then k[end := k[end].(prev := h[end].prev)] else k
  {
  }

  lemma RunOffsets(h: Memory, base: nat, bs: seq<Block>, chunkSize: nat, i: nat)
    requires Spells(h, base, bs, chunkSize) && i < |bs| && !bs[i].avail
    ensures var p, q := RunStart(bs, i), RunEnd(bs, i);
      && Off(base, bs, q) == Off(base, bs, p) + BLOCK_HEADER + CombinedSize(bs, i)
      && Off(base, bs, q) + Span(bs[q..]) == chunkSize
      && (Off(base, bs, q) + BLOCK_HEADER < chunkSize <==> q < |bs|)
  {
    var p, q := RunStart(bs, i), RunEnd(bs, i);
    RunShape(bs, i);
    assert bs[..q] == bs[..p] + bs[p..q];
    SpanConcat(bs[..p], bs[p..q]);
    assert bs == bs[..q] + bs[q..];
    SpanConcat(bs[..q], bs[q..]);
    assert q < |bs| ==> bs[q..][0] == bs[q] && bs[q] in bs;
  }

  /** Memory after a free, read back field by field. */
  lemma ReleaseMemory(h: Memory, base: nat, bs: seq<Block>, chunkSize: nat, i: nat)
    requires Spells(h, base, bs, chunkSize) && i < |bs| && !bs[i].avail
    ensures Off(base, bs, i) in h
    ensures var k := ReleaseHeaders(h, chunkSize, Off(base, bs, i), Repaired);
      var p, q := RunStart(bs, i), RunEnd(bs, i);
      var start, end := Off(base, bs, p), Off(base, bs, q);
      && start in k && k[start] == Header(base, PrevLink(base, bs, p), CombinedSize(bs, i), true)
      && (q < |bs| ==>
        end in h && h[end].prev == PrevLink(base, bs, q) && end in k && k[end] == h[end].(prev := At(start)))
      && Agree(h, k, 0, start) && Agree(h, k, end + 1, chunkSize)
      && ReleaseHeaders(h, chunkSize, Off(base, bs, i), AsWritten)
         == if q < |bs| then k[end := k[end].(prev := PrevLink(base, bs, q))] else k
  {
    var p, q := RunStart(bs, i), RunEnd(bs, i);
    ReleaseIsMerge(h, base, bs, chunkSize, i, AsWritten);
    ReleaseIsMerge(h, base, bs, chunkSize, i, Repaired);
    RunOffsets(h, base, bs, chunkSize, i);
    HeaderAt(h, base, bs, chunkSize, p);
    if q < |bs| { HeaderAt(h, base, bs, chunkSize, q); }
    MergeMemory(h, chunkSize, Off(base, bs, p), CombinedSize(bs, i), PrevFree(bs, i) || NextFree(bs, i),
                Off(base, bs, q));
  }

  /** With the links repaired, merging in memory is releasing in the block list. */
  lemma ReleaseRefines(h: Memory, base: nat, bs: seq<Block>, chunkSize: nat, i: nat)
    requires Spells(h, base, bs, chunkSize) && i < |bs| && !bs[i].avail
    ensures Off(base, bs, i) in h
    ensures Spells(ReleaseHeaders(h, chunkSize, Off(base, bs, i), Repaired), base, Release(bs, i), chunkSize)
  {
    var p, q := RunStart(bs, i), RunEnd(bs, i);
    ReleaseMemory(h, base, bs, chunkSize, i);
    var k := ReleaseHeaders(h, chunkSize, Off(base, bs, i), Repaired);
    RunOffsets(h, base, bs, chunkSize, i);
    EncodesSplit(h, base, bs, p);
    EncodesSplit(h, base, bs, q);
    LastLinkOfPrefix(base, bs, p);
    EncodesOne(k, base, Block(CombinedSize(bs, i), true), Off(base, bs, p), PrevLink(base, bs, p));
    Rewritten(h, k, base, bs[..p], [Block(CombinedSize(bs, i), true)], bs[q..], PrevLink(base, bs, q),
              At(Off(base, bs, p)));
    ReleaseKeeps(bs, i, chunkSize, base);
  }

  /** The blocks after a merged run keep their offsets. */
  lemma ReleaseTail(base: nat, bs: seq<Block>, i: nat)
    requires i < |bs| && !bs[i].avail
    ensures |Release(bs, i)| == RunStart(bs, i) + 1 + |bs| - RunEnd(bs, i)
    ensures Off(base, Release(bs, i), RunStart(bs, i)) == Off(base, bs, RunStart(bs, i))
    ensures Off(base, Release(bs, i), RunStart(bs, i) + 1) == Off(base, bs, RunEnd(bs, i))
  {
    var p, q := RunStart(bs, i), RunEnd(bs, i);
    RunShape(bs, i);
    assert Release(bs, i)[..p] == bs[..p];
    OffStep(base, Release(bs, i), p);
    assert bs[..q] == bs[..p] + bs[p..q];
    SpanConcat(bs[..p], bs[p..q]);
  }

  /** Exactly when merging as written breaks the check: it merges, and a block follows the merged run. */
  lemma ReleaseAsWrittenIntact(h: Memory, base: nat, bs: seq<Block>, chunkSize: nat, i: nat)
    requires Spells(h, base, bs, chunkSize) && i < |bs| && !bs[i].avail
    ensures Off(base, bs, i) in h
    ensures Integrity(ReleaseHeaders(h, chunkSize, Off(base, bs, i), AsWritten), base, chunkSize,
                      MaxAvail(Release(bs, i)))
       <==> (!PrevFree(bs, i) && !NextFree(bs, i)) || RunEnd(bs, i) == |bs|
  {
    var p, q := RunStart(bs, i), RunEnd(bs, i);
    ReleaseMemory(h, base, bs, chunkSize, i);
    ReleaseRefines(h, base, bs, chunkSize, i);
    var k := ReleaseHeaders(h, chunkSize, Off(base, bs, i), Repaired);
    SpellsPasses(k, base, Release(bs, i), chunkSize);
    if q < |bs| {
      ReleaseTail(base, bs, i);
      BackLinkIff(k, base, Release(bs, i), chunkSize, p + 1, PrevLink(base, bs, q));
      if q > p + 1 {
        OffMonotone(base, bs, p, q - 1);
      }
    }
  }

  // ---------------------------------------------------------------- the guard

  /** The early return of `mflist__free_block_and_merge`: as written it tests for a live block. */
  function FreeHeaders(h: Memory, chunkSize: nat, off: nat, guard: Variant, links: Variant): Memory
    requires off in h
  {
    var leaveEarly := if guard.AsWritten? then !h[off].avail else h[off].avail;
    if leaveEarly then h else ReleaseHeaders(h, chunkSize, off, links)
  }

  /** Freeing takes effect exactly when the guard is turned round; as written it never does. */
  lemma FreeTakesEffect(h: Memory, base: nat, bs: seq<Block>, chunkSize: nat, i: nat, guard: Variant, links: Variant)
    requires Spells(h, base, bs, chunkSize) && i < |bs| && !bs[i].avail
    ensures Off(base, bs, i) in h
    ensures FreeHeaders(h, chunkSize, Off(base, bs, i), guard, links) != h <==> guard.Repaired?
  {
    HeaderAt(h, base, bs, chunkSize, i);
    if guard.Repaired? {
      ReleaseIsMerge(h, base, bs, chunkSize, i, links);
      var start := Off(base, bs, RunStart(bs, i));
      HeaderAt(h, base, bs, chunkSize, RunStart(bs, i));
      assert FreeHeaders(h, chunkSize, Off(base, bs, i), guard, links)[start].size == CombinedSize(bs, i);
    }
  }
}

/** Block headers as they lie in a chunk's memory, an offset and four fields each, and the walk over them.

    The functions here follow the C code statement by statement. */
module Headers {
  import opened Blocks

  datatype Link = NoBlock | At(off: nat)

  /** `MFListBlock`: the parent chunk is named by its base address, the previous block by its offset. */
  datatype Header = Header(parent: nat, prev: Link, size: nat, avail: bool)

  type Memory = map<nat, Header>

  // ---------------------------------------------------------------- walking a chunk

  /** Rounding up the start of the first block changes nothing. */
  predicate GoodBase(base: nat) {
    FirstBlock(base) == CHUNK_HEADER
  }

  /** The block after `off`, judged from its size field alone. */
  function NextBlock(h: Memory, chunkSize: nat, off: nat): Link
    requires off in h
  {
    var r := off + BLOCK_HEADER + h[off].size;
    if r + BLOCK_HEADER < chunkSize then At(r) else NoBlock
  }

  /** The asserts of the integrity check, from the block at `off` on. */
  predicate WalkOk(h: Memory, base: nat, chunkSize: nat, off: nat)
    decreases if off < chunkSize then chunkSize - off else 0
  {
    && off in h
    && h[off].parent == base
    && off + BLOCK_HEADER <= chunkSize
    && (base + off) % BLOCK_HEADER == 0
    && match NextBlock(h, chunkSize, off)
       case NoBlock => true
       case At(m) => m in h && h[m].prev == At(off) && WalkOk(h, base, chunkSize, m)
  }

  /** The maximum the integrity check accumulates. */
  function WalkMax(h: Memory, chunkSize: nat, off: nat): nat
    decreases if off < chunkSize then chunkSize - off else 0
  {
    if off !in h then 0
    else
      Max(if h[off].avail then h[off].size else 0,
          match NextBlock(h, chunkSize, off)
          case NoBlock => 0
          case At(m) => WalkMax(h, chunkSize, m))
  }

  /** Where the first loop over a chunk stops: at the first free block that is big enough. */
  function FitFrom(h: Memory, chunkSize: nat, off: nat, n: nat): Link
    decreases if off < chunkSize then chunkSize - off else 0
  {
    if off !in h then NoBlock
    else if h[off].avail && h[off].size >= n then At(off)
    else
      match NextBlock(h, chunkSize, off)
      case NoBlock => NoBlock
      case At(m) => FitFrom(h, chunkSize, m, n)
  }

  /** The maximum over the free blocks that a walk from `from` passes on its way to `off`. */
  function PassedMax(h: Memory, chunkSize: nat, from: nat, off: nat): nat
    decreases if from < off then off - from else 0
  {
    if from >= off || from !in h then 0
    else
      Max(if h[from].avail then h[from].size else 0,
          match NextBlock(h, chunkSize, from)
          case NoBlock => 0
          case At(m) => PassedMax(h, chunkSize, m, off))
  }

  /** The cached maximum that serving the block at `off` writes: the first loop stops there, with the headers `h`, and
      the second one goes on from there, with the headers `h'`. */
  function RenewedMax(h: Memory, h': Memory, chunkSize: nat, first: nat, off: nat): nat {
    Max(PassedMax(h, chunkSize, first, off), WalkMax(h', chunkSize, off))
  }

  predicate Integrity(h: Memory, base: nat, chunkSize: nat, cachedMax: nat) {
    && WalkOk(h, base, chunkSize, FirstBlock(base))
    && WalkMax(h, chunkSize, FirstBlock(base)) == cachedMax
  }

  // ---------------------------------------------------------------- encoding a block list

  /** The headers from `off` on spell out `bs`, the first of them linking back to `prev`. */
  predicate Encodes(h: Memory, base: nat, bs: seq<Block>, off: nat, prev: Link) {
    bs != [] ==>
      && off in h
      && h[off] == Header(base, prev, bs[0].size, bs[0].avail)
      && Encodes(h, base, bs[1..], off + BLOCK_HEADER + bs[0].size, At(off))
  }

  /** What the block after a run links back to. */
  function LastLink(bs: seq<Block>, off: nat, prev: Link): Link {
    if bs == [] then prev else LastLink(bs[1..], off + BLOCK_HEADER + bs[0].size, At(off))
  }

  lemma {:induction false} LastLinkIs(bs: seq<Block>, x: Block, off: nat, prev: Link)
    ensures LastLink(bs + [x], off, prev) == At(off + Span(bs))
  {
    if bs == [] {
      assert bs + [x] == [x] && [x][1..] == [];
    } else {
      assert (bs + [x])[1..] == bs[1..] + [x];
      LastLinkIs(bs[1..], x, off + BLOCK_HEADER + bs[0].size, At(off));
    }
  }

  lemma {:induction false} EncodesConcat(h: Memory, base: nat, a: seq<Block>, b: seq<Block>, off: nat, prev: Link)
    ensures Encodes(h, base, a + b, off, prev) <==>
      Encodes(h, base, a, off, prev) && Encodes(h, base, b, off + Span(a), LastLink(a, off, prev))
  {
    if a == [] {
      assert a + b == b;
    } else {
      assert (a + b)[1..] == a[1..] + b;
      EncodesConcat(h, base, a[1..], b, off + BLOCK_HEADER + a[0].size, At(off));
    }
  }

  ghost predicate Agree(h: Memory, k: Memory, lo: nat, hi: nat) {
    forall o :: lo <= o < hi && o in h ==> o in k && k[o] == h[o]
  }

  lemma {:induction false} EncodesFrame(h: Memory, k: Memory, base: nat, bs: seq<Block>, off: nat, prev: Link)
    requires Encodes(h, base, bs, off, prev) && Agree(h, k, off, off + Span(bs))
    ensures Encodes(k, base, bs, off, prev)
  {
    if bs != [] {
      EncodesFrame(h, k, base, bs[1..], off + BLOCK_HEADER + bs[0].size, At(off));
    }
  }

  /** Only the first header of a run depends on what the run links back to. */
  lemma EncodesRelinked(h: Memory, k: Memory, base: nat, bs: seq<Block>, off: nat, prev: Link, prev': Link)
    requires Encodes(h, base, bs, off, prev) && Agree(h, k, off + 1, off + Span(bs))
    requires bs != [] ==> off in k && k[off] == h[off].(prev := prev')
    ensures Encodes(k, base, bs, off, prev')
  {
    if bs != [] {
      EncodesFrame(h, k, base, bs[1..], off + BLOCK_HEADER + bs[0].size, At(off));
    }
  }

  /** The headers of a whole chunk spell out its block list. */
  ghost predicate Spells(h: Memory, base: nat, bs: seq<Block>, chunkSize: nat) {
    && Tiles(bs, base, chunkSize)
    && Aligned(bs, base + FirstBlock(base))
    && Encodes(h, base, bs, FirstBlock(base), NoBlock)
  }

  function PrevLink(base: nat, bs: seq<Block>, i: nat): Link
    requires i <= |bs|
  {
    if i == 0 then NoBlock else At(Off(base, bs, i - 1))
  }

  lemma LastLinkOfPrefix(base: nat, bs: seq<Block>, i: nat)
    requires i <= |bs|
    ensures LastLink(bs[..i], FirstBlock(base), NoBlock) == PrevLink(base, bs, i)
  {
    if i > 0 {
      assert bs[..i] == bs[..i - 1] + [bs[i - 1]];
      LastLinkIs(bs[..i - 1], bs[i - 1], FirstBlock(base), NoBlock);
    }
  }

  /** Cutting the encoding at block `i`. */
  lemma EncodesSplit(h: Memory, base: nat, bs: seq<Block>, i: nat)
    requires i <= |bs|
    ensures Encodes(h, base, bs, FirstBlock(base), NoBlock) <==>
      && Encodes(h, base, bs[..i], FirstBlock(base), NoBlock)
      && Encodes(h, base, bs[i..], Off(base, bs, i), PrevLink(base, bs, i))
  {
    assert bs == bs[..i] + bs[i..];
    EncodesConcat(h, base, bs[..i], bs[i..], FirstBlock(base), NoBlock);
    LastLinkOfPrefix(base, bs, i);
  }

  /** What reading header `i` gives, and where the walk goes from there. */
  lemma HeaderAt(h: Memory, base: nat, bs: seq<Block>, chunkSize: nat, i: nat)
    requires Spells(h, base, bs, chunkSize) && i < |bs|
    ensures Off(base, bs, i) in h && h[Off(base, bs, i)] == Header(base, PrevLink(base, bs, i), bs[i].size, bs[i].avail)
    ensures NextBlock(h, chunkSize, Off(base, bs, i)) == if i + 1 < |bs| then At(Off(base, bs, i + 1)) else NoBlock
  {
    EncodesSplit(h, base, bs, i);
    OffStep(base, bs, i);
    assert bs[..|bs|] == bs;
    if i + 1 < |bs| {
      OffMonotone(base, bs, i + 1, |bs|);
      assert bs[i + 1] in bs;
    }
  }

  // ---------------------------------------------------------------- the integrity check

  lemma {:induction false} EncodesWalks(h: Memory, base: nat, bs: seq<Block>, off: nat, prev: Link, chunkSize: nat)
    requires bs != [] && AllPositive(bs) && Aligned(bs, base + off)
    requires Encodes(h, base, bs, off, prev) && off + Span(bs) == chunkSize
    ensures WalkOk(h, base, chunkSize, off) && WalkMax(h, chunkSize, off) == MaxAvail(bs)
    decreases |bs|
  {
    if |bs| > 1 {
      assert bs[1..][0] == bs[1];
      assert forall x :: x in bs[1..] ==> x in bs;
      EncodesWalks(h, base, bs[1..], off + BLOCK_HEADER + bs[0].size, At(off), chunkSize);
    } else {
      assert bs[1..] == [];
    }
  }

  /** A chunk whose headers spell out a tiling passes the code's own integrity check. */
  lemma SpellsPasses(h: Memory, base: nat, bs: seq<Block>, chunkSize: nat)
    requires Spells(h, base, bs, chunkSize)
    ensures Integrity(h, base, chunkSize, MaxAvail(bs))
  {
    EncodesWalks(h, base, bs, FirstBlock(base), NoBlock, chunkSize);
  }

  // ---------------------------------------------------------------- what the check says of any headers

  /** The blocks that a walk from the first of `offs` visits, each of them passing the asserts. */
  ghost predicate Path(h: Memory, base: nat, chunkSize: nat, offs: seq<nat>) {
    offs != [] && forall i :: 0 <= i < |offs| ==> PathAt(h, base, chunkSize, offs, i)
  }

  predicate PathAt(h: Memory, base: nat, chunkSize: nat, offs: seq<nat>, i: nat)
    requires i < |offs|
  {
    && offs[i] in h && h[offs[i]].parent == base && offs[i] + BLOCK_HEADER <= chunkSize
    && (base + offs[i]) % BLOCK_HEADER == 0
    && var next := offs[i] + BLOCK_HEADER + h[offs[i]].size;
    if i + 1 < |offs| then
      offs[i + 1] == next && next + BLOCK_HEADER < chunkSize && next in h && h[next].prev == At(offs[i])
    else next + BLOCK_HEADER >= chunkSize
  }

  /** The sizes of the free blocks on the path. */
  ghost predicate IsMax(h: Memory, offs: seq<nat>, m: nat) {
    && (forall i :: 0 <= i < |offs| ==> offs[i] in h && (h[offs[i]].avail ==> h[offs[i]].size <= m))
    && (m == 0 || exists i :: 0 <= i < |offs| && offs[i] in h && h[offs[i]].avail && h[offs[i]].size == m)
  }

  lemma {:induction false} WalkIsPath(h: Memory, base: nat, chunkSize: nat, off: nat) returns (offs: seq<nat>)
    requires WalkOk(h, base, chunkSize, off)
    ensures Path(h, base, chunkSize, offs) && offs[0] == off && IsMax(h, offs, WalkMax(h, chunkSize, off))
    decreases if off < chunkSize then chunkSize - off else 0
  {
    match NextBlock(h, chunkSize, off)
    case NoBlock =>
      offs := [off];
    case At(m) =>
      var rest := WalkIsPath(h, base, chunkSize, m);
      offs := [off] + rest;
      PathLonger(h, base, chunkSize, off, rest);
      MaxLonger(h, off, rest, WalkMax(h, chunkSize, m));
  }

  lemma PathLonger(h: Memory, base: nat, chunkSize: nat, off: nat, rest: seq<nat>)
    requires Path(h, base, chunkSize, rest) && PathAt(h, base, chunkSize, [off] + rest, 0)
    ensures Path(h, base, chunkSize, [off] + rest)
  {
    var offs := [off] + rest;
    forall i | 0 <= i < |offs| ensures PathAt(h, base, chunkSize, offs, i) {
      if i > 0 {
        assert PathAt(h, base, chunkSize, rest, i - 1);
      }
    }
  }

  lemma MaxLonger(h: Memory, off: nat, rest: seq<nat>, m: nat)
    requires off in h && IsMax(h, rest, m)
    ensures IsMax(h, [off] + rest, Max(if h[off].avail then h[off].size else 0, m))
  {
    var offs, n := [off] + rest, Max(if h[off].avail then h[off].size else 0, m);
    forall i | 0 <= i < |offs| ensures offs[i] in h && (h[offs[i]].avail ==> h[offs[i]].size <= n) {
      if i > 0 {
        assert offs[i] == rest[i - 1];
      }
    }
    if n != 0 {
      if h[off].avail && h[off].size == n {
        assert offs[0] == off;
      } else {
        var i :| 0 <= i < |rest| && rest[i] in h && h[rest[i]].avail && h[rest[i]].size == m;
        assert offs[i + 1] == rest[i];
      }
    }
  }

  lemma {:induction false} PathIsWalk(h: Memory, base: nat, chunkSize: nat, offs: seq<nat>)
    requires Path(h, base, chunkSize, offs)
    ensures WalkOk(h, base, chunkSize, offs[0]) && IsMax(h, offs, WalkMax(h, chunkSize, offs[0]))
    decreases |offs|
  {
    assert PathAt(h, base, chunkSize, offs, 0);
    if |offs| > 1 {
      var rest := offs[1..];
      forall i | 0 <= i < |rest| ensures PathAt(h, base, chunkSize, rest, i) {
        assert PathAt(h, base, chunkSize, offs, i + 1);
      }
      PathIsWalk(h, base, chunkSize, rest);
      MaxLonger(h, offs[0], rest, WalkMax(h, chunkSize, rest[0]));
      assert offs == [offs[0]] + rest;
    } else {
      assert offs[0] in h;
    }
  }

  lemma OneMax(h: Memory, offs: seq<nat>, m: nat, n: nat)
    requires IsMax(h, offs, m) && IsMax(h, offs, n)
    ensures m == n
  {
  }

  /** Headers that pass the check: the walk visits blocks that name the chunk as their parent, lie inside it at
      multiples of the header size and are linked back, each at the end of the one before, up to the end of the chunk;
      the cached maximum is that of their free blocks. */
  lemma PassedMeans(h: Memory, base: nat, chunkSize: nat, cachedMax: nat) returns (offs: seq<nat>)
    requires Integrity(h, base, chunkSize, cachedMax)
    ensures offs != [] && offs[0] == FirstBlock(base)
    ensures forall i :: 0 <= i < |offs| ==> offs[i] in h && h[offs[i]].parent == base
    ensures forall i :: 0 <= i < |offs| ==> offs[i] + 24 <= chunkSize && (base + offs[i]) % 24 == 0
    ensures forall i :: 0 < i < |offs| ==>
      && offs[i] == offs[i - 1] + 24 + h[offs[i - 1]].size && offs[i] + 24 < chunkSize
      && h[offs[i]].prev == At(offs[i - 1])
    ensures offs[|offs| - 1] + 24 + h[offs[|offs| - 1]].size + 24 >= chunkSize
    ensures forall i :: 0 <= i < |offs| ==> h[offs[i]].avail ==> h[offs[i]].size <= cachedMax
    ensures cachedMax == 0 || exists i :: 0 <= i < |offs| && h[offs[i]].avail && h[offs[i]].size == cachedMax
  {
    offs := WalkIsPath(h, base, chunkSize, FirstBlock(base));
    hide FirstBlock, WalkOk, WalkMax;
    forall i | 0 <= i < |offs| ensures offs[i] in h && PathAt(h, base, chunkSize, offs, i) {
    }
    forall i | 0 < i < |offs|
      ensures offs[i] == offs[i - 1] + 24 + h[offs[i - 1]].size && offs[i] + 24 < chunkSize
      ensures h[offs[i]].prev == At(offs[i - 1])
    {
      assert PathAt(h, base, chunkSize, offs, i - 1);
    }
    assert PathAt(h, base, chunkSize, offs, |offs| - 1);
  }

  /** Conversely, such headers pass. */
  lemma SoundPasses(h: Memory, base: nat, chunkSize: nat, cachedMax: nat, offs: seq<nat>)
    requires offs != [] && offs[0] == FirstBlock(base)
    requires forall i :: 0 <= i < |offs| ==> offs[i] in h && h[offs[i]].parent == base
    requires forall i :: 0 <= i < |offs| ==> offs[i] + 24 <= chunkSize && (base + offs[i]) % 24 == 0
    requires forall i :: 0 < i < |offs| ==>
      && offs[i] == offs[i - 1] + 24 + h[offs[i - 1]].size && offs[i] + 24 < chunkSize
      && h[offs[i]].prev == At(offs[i - 1])
    requires offs[|offs| - 1] + 24 + h[offs[|offs| - 1]].size + 24 >= chunkSize
    requires forall i :: 0 <= i < |offs| ==> h[offs[i]].avail ==> h[offs[i]].size <= cachedMax
    requires cachedMax == 0 || exists i :: 0 <= i < |offs| && h[offs[i]].avail && h[offs[i]].size == cachedMax
    ensures Integrity(h, base, chunkSize, cachedMax)
  {
    hide FirstBlock;
    forall i | 0 <= i < |offs| ensures PathAt(h, base, chunkSize, offs, i) {
      assert i + 1 < |offs| ==> h[offs[i + 1]].prev == At(offs[i + 1 - 1]);
    }
    PathIsWalk(h, base, chunkSize, offs);
    OneMax(h, offs, cachedMax, WalkMax(h, chunkSize, offs[0]));
  }

  /** A stale back link is caught: the walk reaches it through sizes alone. */
  lemma {:induction false} StaleLinkCaught(h: Memory, base: nat, bs: seq<Block>, off: nat, prev: Link,
                                           chunkSize: nat, j: nat, wrong: Link)
    requires AllPositive(bs) && Encodes(h, base, bs, off, prev) && off + Span(bs) == chunkSize
    requires 1 <= j < |bs|
    requires var at := off + Span(bs[..j]); at in h && wrong != h[at].prev
    ensures var at := off + Span(bs[..j]); !WalkOk(h[at := h[at].(prev := wrong)], base, chunkSize, off)
    decreases |bs|
  {
    var at := off + Span(bs[..j]);
    var k := h[at := h[at].(prev := wrong)];
    var next := off + BLOCK_HEADER + bs[0].size;
    assert bs[..j][1..] == bs[1..][..j - 1];
    assert bs[1..][0] == bs[1];
    assert bs[1] in bs;
    assert forall x :: x in bs[1..] ==> x in bs;
    assert off in k && NextBlock(k, chunkSize, off) == At(next);
    if j > 1 {
      StaleLinkCaught(h, base, bs[1..], next, At(off), chunkSize, j - 1, wrong);
    } else {
      assert bs[..1][1..] == [];
    }
  }

  /** Rewriting one back link of a sound chunk keeps the check exactly when it rewrites nothing. */
  lemma BackLinkIff(h: Memory, base: nat, bs: seq<Block>, chunkSize: nat, j: nat, link: Link)
    requires Spells(h, base, bs, chunkSize) && 1 <= j < |bs|
    ensures Off(base, bs, j) in h
    ensures Integrity(h[Off(base, bs, j) := h[Off(base, bs, j)].(prev := link)], base, chunkSize, MaxAvail(bs))
       <==> link == PrevLink(base, bs, j)
  {
    var at := Off(base, bs, j);
    HeaderAt(h, base, bs, chunkSize, j);
    SpellsPasses(h, base, bs, chunkSize);
    if link == PrevLink(base, bs, j) {
      assert h[at := h[at].(prev := link)] == h;
    } else {
      StaleLinkCaught(h, base, bs, FirstBlock(base), NoBlock, chunkSize, j, link);
    }
  }

  // ---------------------------------------------------------------- the lowest fitting block

  lemma {:induction false} FitIs(h: Memory, base: nat, bs: seq<Block>, off: nat, prev: Link, chunkSize: nat, n: nat)
    requires bs != [] && AllPositive(bs) && Encodes(h, base, bs, off, prev) && off + Span(bs) == chunkSize
    ensures FitFrom(h, chunkSize, off, n) ==
      if FirstFit(bs, n) < |bs| then At(off + Span(bs[..FirstFit(bs, n)])) else NoBlock
    decreases |bs|
  {
    var next := off + BLOCK_HEADER + bs[0].size;
    if !Fits(bs[0], n) {
      if |bs| > 1 {
        var i := FirstFit(bs[1..], n);
        assert bs[..i + 1][1..] == bs[1..][..i];
        assert forall x :: x in bs[1..] ==> x in bs;
        assert bs[1..][0] in bs && Span(bs[1..]) >= BLOCK_HEADER + bs[1..][0].size;
        assert NextBlock(h, chunkSize, off) == At(next);
        FitIs(h, base, bs[1..], next, At(off), chunkSize, n);
      } else {
        assert bs[1..] == [];
      }
    }
  }

  /** In a sound chunk the walk over the headers stops where the first fit of the block list is. */
  lemma FitFromIs(h: Memory, base: nat, bs: seq<Block>, chunkSize: nat, n: nat)
    requires Spells(h, base, bs, chunkSize)
    ensures FitFrom(h, chunkSize, FirstBlock(base), n) ==
      if FirstFit(bs, n) < |bs| then At(Off(base, bs, FirstFit(bs, n))) else NoBlock
  {
    FitIs(h, base, bs, FirstBlock(base), NoBlock, chunkSize, n);
  }

  // ---------------------------------------------------------------- the cached maximum

  lemma {:induction false} PassedIs(h: Memory, base: nat, bs: seq<Block>, off: nat, prev: Link, chunkSize: nat, i: nat)
    requires AllPositive(bs) && Encodes(h, base, bs, off, prev) && off + Span(bs) == chunkSize && i < |bs|
    ensures PassedMax(h, chunkSize, off, off + Span(bs[..i])) == MaxAvail(bs[..i])
    decreases i
  {
    if i > 0 {
      var next := off + BLOCK_HEADER + bs[0].size;
      assert bs[..i][1..] == bs[1..][..i - 1];
      assert forall x :: x in bs[1..] ==> x in bs;
      assert bs[1..][0] in bs && Span(bs[1..]) >= BLOCK_HEADER + bs[1..][0].size;
      assert NextBlock(h, chunkSize, off) == At(next);
      PassedIs(h, base, bs[1..], next, At(off), chunkSize, i - 1);
    }
  }

  /** If the blocks in front of the served one stay as they are, the true maximum is written. */
  lemma RenewedMaxIs(h: Memory, h': Memory, base: nat, bs: seq<Block>, cs: seq<Block>, chunkSize: nat, i: nat)
    requires Spells(h, base, bs, chunkSize) && Spells(h', base, cs, chunkSize)
    requires i < |bs| && i < |cs| && bs[..i] == cs[..i]
    ensures RenewedMax(h, h', chunkSize, FirstBlock(base), Off(base, bs, i)) == MaxAvail(cs)
  {
    SpellsPasses(h, base, bs, chunkSize);
    PassedIs(h, base, bs, FirstBlock(base), NoBlock, chunkSize, i);
    EncodesSplit(h', base, cs, i);
    SplitAt(cs, i, base);
    EncodesWalks(h', base, cs[i..], Off(base, cs, i), PrevLink(base, cs, i), chunkSize);
  }

  lemma SplitAt(cs: seq<Block>, i: nat, base: nat)
    requires i < |cs| && Aligned(cs, base + FirstBlock(base)) && AllPositive(cs)
    ensures Aligned(cs[i..], base + Off(base, cs, i)) && AllPositive(cs[i..])
    ensures Span(cs[..i]) + Span(cs[i..]) == Span(cs)
    ensures MaxAvail(cs) == Max(MaxAvail(cs[..i]), MaxAvail(cs[i..]))
  {
    assert cs == cs[..i] + cs[i..];
    AlignedConcat(cs[..i], cs[i..], base + FirstBlock(base));
    SpanConcat(cs[..i], cs[i..]);
    MaxAvailConcat(cs[..i], cs[i..]);
    assert forall x :: x in cs[i..] ==> x in cs;
  }
}

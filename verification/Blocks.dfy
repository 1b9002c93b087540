/** The blocks of one MFList chunk, as a value.

    A chunk is a 32 byte chunk header, padding up to an address that is a multiple of 24, and blocks that tile the
    rest of it, each a 24 byte block header and a payload.  This module says what allocating from and
    freeing into such a tiling means, and proves what the two operations keep. */
module Blocks {

  /** `sizeof(MFListBlock)` and `sizeof(MFListChunk)` on the 64 bit targets. */
  const BLOCK_HEADER: nat := 24
  const CHUNK_HEADER: nat := 32

  datatype Block = Block(size: nat, avail: bool)

  function Max(x: nat, y: nat): (m: nat)
    ensures m >= x && m >= y && (m == x || m == y)
  {
    if x < y then y else x
  }

  // ---------------------------------------------------------------- offsets

  /** Bytes covered by a run of blocks, headers included. */
  function Span(bs: seq<Block>): nat {
    if bs == [] then 0 else BLOCK_HEADER + bs[0].size + Span(bs[1..])
  }

  lemma {:induction false} SpanConcat(a: seq<Block>, b: seq<Block>)
    ensures Span(a + b) == Span(a) + Span(b)
  {
    if a == [] {
      assert a + b == b;
    } else {
      assert (a + b)[1..] == a[1..] + b;
      SpanConcat(a[1..], b);
    }
  }

  /** Offset of the first block header in a chunk at `base`: the end of the chunk header, rounded up as an address. */
  function FirstBlock(base: nat): (o: nat)
    ensures CHUNK_HEADER <= o < CHUNK_HEADER + BLOCK_HEADER && (base + o) % BLOCK_HEADER == 0
  {
    (base + CHUNK_HEADER + BLOCK_HEADER - 1) / BLOCK_HEADER * BLOCK_HEADER - base
  }

  /** Offset, from the chunk base, of the header of block `i`; `i == |bs|` is the end. */
  function Off(base: nat, bs: seq<Block>, i: nat): nat
    requires i <= |bs|
  {
    FirstBlock(base) + Span(bs[..i])
  }

  lemma OffStep(base: nat, bs: seq<Block>, i: nat)
    requires i < |bs|
    ensures Off(base, bs, i + 1) == Off(base, bs, i) + BLOCK_HEADER + bs[i].size
  {
    assert bs[..i + 1] == bs[..i] + [bs[i]];
    SpanConcat(bs[..i], [bs[i]]);
  }

  lemma {:induction false} OffMonotone(base: nat, bs: seq<Block>, i: nat, j: nat)
    requires i < j <= |bs|
    ensures Off(base, bs, i) + BLOCK_HEADER + bs[i].size <= Off(base, bs, j)
    decreases j
  {
    OffStep(base, bs, j - 1);
    if i < j - 1 {
      OffMonotone(base, bs, i, j - 1);
    }
  }

  // ---------------------------------------------------------------- cached maximum

  function MaxAvail(bs: seq<Block>): nat {
    if bs == [] then 0
    else Max(if bs[0].avail then bs[0].size else 0, MaxAvail(bs[1..]))
  }

  lemma {:induction false} MaxAvailConcat(a: seq<Block>, b: seq<Block>)
    ensures MaxAvail(a + b) == Max(MaxAvail(a), MaxAvail(b))
  {
    if a == [] {
      assert a + b == b;
    } else {
      assert (a + b)[1..] == a[1..] + b;
      MaxAvailConcat(a[1..], b);
    }
  }

  /** The recursive maximum is the least upper bound of the free payloads. */
  lemma {:induction false} MaxAvailIsMaximum(bs: seq<Block>)
    ensures forall i :: 0 <= i < |bs| && bs[i].avail ==> bs[i].size <= MaxAvail(bs)
    ensures MaxAvail(bs) == 0 || exists i :: 0 <= i < |bs| && bs[i].avail && bs[i].size == MaxAvail(bs)
  {
    if bs != [] {
      MaxAvailIsMaximum(bs[1..]);
      forall i | 0 <= i < |bs| && bs[i].avail
        ensures bs[i].size <= MaxAvail(bs)
      {
        if i > 0 { assert bs[i] == bs[1..][i - 1]; }
      }
      if MaxAvail(bs) != 0 {
        if bs[0].avail && bs[0].size == MaxAvail(bs) {
        } else {
          var i :| 0 <= i < |bs[1..]| && bs[1..][i].avail && bs[1..][i].size == MaxAvail(bs[1..]);
          assert bs[i + 1] == bs[1..][i];
        }
      }
    }
  }

  // ---------------------------------------------------------------- live payload total

  function LiveBytes(bs: seq<Block>): nat {
    if bs == [] then 0
    else (if bs[0].avail then 0 else bs[0].size) + LiveBytes(bs[1..])
  }

  lemma {:induction false} LiveBytesConcat(a: seq<Block>, b: seq<Block>)
    ensures LiveBytes(a + b) == LiveBytes(a) + LiveBytes(b)
  {
    if a == [] {
      assert a + b == b;
    } else {
      assert (a + b)[1..] == a[1..] + b;
      LiveBytesConcat(a[1..], b);
    }
  }

  // ---------------------------------------------------------------- well-formed block lists

  ghost predicate NoAdjacentFree(bs: seq<Block>) {
    forall i :: 0 <= i < |bs| - 1 ==> !(bs[i].avail && bs[i + 1].avail)
  }

  ghost predicate AllPositive(bs: seq<Block>) {
    forall b :: b in bs ==> b.size > 0
  }

  /** Every block header of a run that starts at address `addr` is a multiple of the header size. */
  ghost predicate Aligned(bs: seq<Block>, addr: nat) {
    bs != [] ==> addr % BLOCK_HEADER == 0 && Aligned(bs[1..], addr + BLOCK_HEADER + bs[0].size)
  }

  lemma {:induction false} AlignedConcat(a: seq<Block>, b: seq<Block>, addr: nat)
    ensures Aligned(a + b, addr) <==> Aligned(a, addr) && Aligned(b, addr + Span(a))
  {
    if a == [] {
      assert a + b == b;
    } else {
      assert (a + b)[1..] == a[1..] + b;
      AlignedConcat(a[1..], b, addr + BLOCK_HEADER + a[0].size);
    }
  }

  /** The blocks tile a chunk of `size` bytes exactly. */
  ghost predicate Tiles(bs: seq<Block>, base: nat, size: nat) {
    && bs != []
    && AllPositive(bs)
    && FirstBlock(base) + Span(bs) == size
  }

  // ---------------------------------------------------------------- first fit

  predicate Fits(b: Block, n: nat) {
    b.avail && b.size >= n
  }

  /** Index of the lowest block that can serve `n` bytes, or `|bs|`. */
  function FirstFit(bs: seq<Block>, n: nat): (r: nat)
    ensures r <= |bs|
    ensures forall j :: 0 <= j < r ==> !Fits(bs[j], n)
    ensures r < |bs| ==> Fits(bs[r], n)
  {
    if bs == [] then 0
    else if Fits(bs[0], n) then 0
    else 1 + FirstFit(bs[1..], n)
  }

  /** The cached maximum is a complete index: a scan finds a block exactly when it says so. */
  lemma {:induction false} FitIffMaxAvail(bs: seq<Block>, n: nat)
    requires n > 0
    ensures FirstFit(bs, n) < |bs| <==> MaxAvail(bs) >= n
  {
    MaxAvailIsMaximum(bs);
  }

  // ---------------------------------------------------------------- allocating

  /** Whether the tail left by serving `n` bytes becomes a block of its own. */
  predicate Splits(b: Block, n: nat, chunkSize: nat, bounded: bool)
    requires n <= b.size
  {
    bounded && b.size - n > BLOCK_HEADER && b.size - n > chunkSize / 10
  }

  /** What a free block becomes once `n` of its bytes are handed out. */
  function Cut(b: Block, n: nat, chunkSize: nat, bounded: bool): seq<Block>
    requires Fits(b, n)
  {
    if Splits(b, n, chunkSize, bounded)
    then [Block(n, false), Block(b.size - n - BLOCK_HEADER, true)]
    else [Block(b.size, false)]
  }

  /** Serving `n` bytes from block `i`. */
  function Fork(bs: seq<Block>, i: nat, n: nat, chunkSize: nat, bounded: bool): seq<Block>
    requires i < |bs| && Fits(bs[i], n)
  {
    bs[..i] + Cut(bs[i], n, chunkSize, bounded) + bs[i + 1..]
  }

  // ---------------------------------------------------------------- freeing

  predicate PrevFree(bs: seq<Block>, i: nat)
    requires i < |bs|
  {
    i > 0 && bs[i - 1].avail
  }

  predicate NextFree(bs: seq<Block>, i: nat)
    requires i < |bs|
  {
    i + 1 < |bs| && bs[i + 1].avail
  }

  /** First block and one past the last block of the run that freeing `i` merges. */
  function RunStart(bs: seq<Block>, i: nat): nat
    requires i < |bs|
  {
    if PrevFree(bs, i) then i - 1 else i
  }

  function RunEnd(bs: seq<Block>, i: nat): nat
    requires i < |bs|
  {
    if NextFree(bs, i) then i + 2 else i + 1
  }

  /** Payload of the merged block: the run without its first header. */
  function CombinedSize(bs: seq<Block>, i: nat): nat
    requires i < |bs|
  {
    bs[i].size
    + (if PrevFree(bs, i) then bs[i - 1].size + BLOCK_HEADER else 0)
    + (if NextFree(bs, i) then BLOCK_HEADER + bs[i + 1].size else 0)
  }

  function Release(bs: seq<Block>, i: nat): seq<Block>
    requires i < |bs|
  {
    bs[..RunStart(bs, i)] + [Block(CombinedSize(bs, i), true)] + bs[RunEnd(bs, i)..]
  }

  // ---------------------------------------------------------------- live payloads

  /** Live payloads of a run that starts at address `addr`: payload address to payload size. */
  function Live(bs: seq<Block>, addr: nat): map<nat, nat> {
    if bs == [] then map[]
    else
      var rest := Live(bs[1..], addr + BLOCK_HEADER + bs[0].size);
      if bs[0].avail then rest else rest[addr + BLOCK_HEADER := bs[0].size]
  }

  /** Live payloads lie inside the run, each behind a header of its own. */
  lemma {:induction false} LiveBounds(bs: seq<Block>, addr: nat)
    ensures forall p :: p in Live(bs, addr) ==>
      addr + BLOCK_HEADER <= p && p + Live(bs, addr)[p] <= addr + Span(bs)
  {
    if bs != [] {
      LiveBounds(bs[1..], addr + BLOCK_HEADER + bs[0].size);
    }
  }

  lemma NotLiveOutside(bs: seq<Block>, addr: nat, p: nat)
    requires p < addr + BLOCK_HEADER || p > addr + Span(bs)
    ensures p !in Live(bs, addr)
  {
  }

  /** Two live payloads never overlap: a whole header lies between them. */
  lemma {:induction false} LiveSeparated(bs: seq<Block>, addr: nat)
    ensures forall p, q :: p in Live(bs, addr) && q in Live(bs, addr) && p < q ==>
      p + Live(bs, addr)[p] + BLOCK_HEADER <= q
  {
    if bs != [] {
      var next := addr + BLOCK_HEADER + bs[0].size;
      LiveBounds(bs[1..], next);
      LiveSeparated(bs[1..], next);
    }
  }

  lemma {:induction false} LiveConcat(a: seq<Block>, b: seq<Block>, addr: nat)
    ensures Live(a + b, addr) == Live(a, addr) + Live(b, addr + Span(a))
  {
    if a == [] {
      assert a + b == b;
    } else {
      assert (a + b)[1..] == a[1..] + b;
      var next := addr + BLOCK_HEADER + a[0].size;
      LiveConcat(a[1..], b, next);
      LiveBounds(b, addr + Span(a));
      assert next + Span(a[1..]) == addr + Span(a);
    }
  }

  /** `LiveConcat` for a run cut in three. */
  lemma LiveThree(a: seq<Block>, m: seq<Block>, b: seq<Block>, addr: nat)
    ensures Live(a + m + b, addr)
         == Live(a, addr) + Live(m, addr + Span(a)) + Live(b, addr + Span(a) + Span(m))
  {
    LiveConcat(a + m, b, addr);
    LiveConcat(a, m, addr);
    SpanConcat(a, m);
  }

  lemma {:induction false} LiveEmptyIffAllFree(bs: seq<Block>, addr: nat)
    ensures Live(bs, addr) == map[] <==> forall i :: 0 <= i < |bs| ==> bs[i].avail
  {
    if bs != [] {
      LiveEmptyIffAllFree(bs[1..], addr + BLOCK_HEADER + bs[0].size);
      if forall i :: 0 <= i < |bs[1..]| ==> bs[1..][i].avail {
        forall i | 1 <= i < |bs| ensures bs[i].avail {
          assert bs[i] == bs[1..][i - 1];
        }
      }
      if forall i :: 0 <= i < |bs| ==> bs[i].avail {
        assert forall i :: 0 <= i < |bs[1..]| ==> bs[1..][i] == bs[i + 1];
      } else if bs[0].avail {
        var i :| 0 <= i < |bs| && !bs[i].avail;
        assert bs[1..][i - 1] == bs[i];
      } else {
        assert addr + BLOCK_HEADER in Live(bs, addr);
      }
    }
  }

  /** Where block `i` lives once it is live. */
  function PayloadAt(bs: seq<Block>, i: nat, base: nat): nat
    requires i <= |bs|
  {
    base + Off(base, bs, i) + BLOCK_HEADER
  }

  lemma LiveAt(bs: seq<Block>, i: nat, base: nat)
    requires i < |bs| && !bs[i].avail
    ensures PayloadAt(bs, i, base) in Live(bs, base + FirstBlock(base))
    ensures Live(bs, base + FirstBlock(base))[PayloadAt(bs, i, base)] == bs[i].size
  {
    var start := base + FirstBlock(base);
    assert bs == bs[..i] + [bs[i]] + bs[i + 1..];
    LiveThree(bs[..i], [bs[i]], bs[i + 1..], start);
    LiveBounds(bs[i + 1..], start + Span(bs[..i]) + Span([bs[i]]));
  }

  /** Every live payload belongs to exactly one block. */
  lemma {:induction false} LiveIndex(bs: seq<Block>, addr: nat, p: nat) returns (i: nat)
    requires p in Live(bs, addr)
    ensures i < |bs| && !bs[i].avail && bs[i].size == Live(bs, addr)[p]
    ensures p == addr + Span(bs[..i]) + BLOCK_HEADER
  {
    var next := addr + BLOCK_HEADER + bs[0].size;
    if !bs[0].avail && p == addr + BLOCK_HEADER {
      i := 0;
      NotLiveOutside(bs[1..], next, p);
    } else {
      var j := LiveIndex(bs[1..], next, p);
      i := j + 1;
      assert bs[..i][1..] == bs[1..][..j];
    }
  }

  // ---------------------------------------------------------------- replacing a run in place

  lemma OneBlock(x: Block, addr: nat)
    ensures Span([x]) == BLOCK_HEADER + x.size
    ensures LiveBytes([x]) == if x.avail then 0 else x.size
    ensures MaxAvail([x]) == if x.avail then x.size else 0
    ensures Live([x], addr) == if x.avail then map[] else map[addr + BLOCK_HEADER := x.size]
    ensures Aligned([x], addr) <==> addr % BLOCK_HEADER == 0
  {
  }

  lemma TwoBlocks(x: Block, y: Block, addr: nat)
    ensures Span([x, y]) == Span([x]) + Span([y])
    ensures LiveBytes([x, y]) == LiveBytes([x]) + LiveBytes([y])
    ensures MaxAvail([x, y]) == Max(MaxAvail([x]), MaxAvail([y]))
    ensures Live([x, y], addr) == Live([x], addr) + Live([y], addr + Span([x]))
    ensures Aligned([x, y], addr) <==> Aligned([x], addr) && Aligned([y], addr + Span([x]))
  {
  }

  /** Both operations replace a run `x` by a run `m` of the same span; what lies around it stays put. */
  lemma ReplaceSpan(a: seq<Block>, x: seq<Block>, m: seq<Block>, b: seq<Block>, addr: nat)
    requires Span(x) == Span(m)
    ensures Span(a + m + b) == Span(a + x + b)
    ensures Aligned(a + x + b, addr) && Aligned(m, addr + Span(a)) ==> Aligned(a + m + b, addr)
    ensures Aligned(a + x + b, addr) ==> Aligned(x, addr + Span(a))
  {
    SpanConcat(a + x, b); SpanConcat(a, x);
    SpanConcat(a + m, b); SpanConcat(a, m);
    AlignedConcat(a + x, b, addr); AlignedConcat(a, x, addr);
    AlignedConcat(a + m, b, addr); AlignedConcat(a, m, addr);
  }

  lemma ReplaceSums(a: seq<Block>, x: seq<Block>, m: seq<Block>, b: seq<Block>)
    ensures LiveBytes(a + m + b) + LiveBytes(x) == LiveBytes(a + x + b) + LiveBytes(m)
    ensures MaxAvail(a + m + b) == Max(Max(MaxAvail(a), MaxAvail(m)), MaxAvail(b))
  {
    LiveBytesConcat(a + x, b); LiveBytesConcat(a, x);
    LiveBytesConcat(a + m, b); LiveBytesConcat(a, m);
    MaxAvailConcat(a + m, b); MaxAvailConcat(a, m);
  }

  lemma ReplaceTiles(a: seq<Block>, x: seq<Block>, m: seq<Block>, b: seq<Block>, base: nat, size: nat)
    requires Tiles(a + x + b, base, size) && Span(x) == Span(m) && m != [] && AllPositive(m)
    ensures Tiles(a + m + b, base, size)
  {
    ReplaceSpan(a, x, m, b, 0);
    var bs, cs := a + x + b, a + m + b;
    assert forall y :: y in a || y in b ==> y in bs;
    assert forall y :: y in cs ==> y in a || y in m || y in b;
  }

  /** Replacing a run without live payloads by one whose only payload is its first block. */
  lemma LiveInserted(a: seq<Block>, x: seq<Block>, m: seq<Block>, b: seq<Block>, addr: nat, size: nat)
    requires Span(x) == Span(m)
    requires Live(x, addr + Span(a)) == map[]
    requires Live(m, addr + Span(a)) == map[addr + Span(a) + BLOCK_HEADER := size]
    requires Span(m) >= BLOCK_HEADER
    ensures addr + Span(a) + BLOCK_HEADER !in Live(a + x + b, addr)
    ensures Live(a + m + b, addr) == Live(a + x + b, addr)[addr + Span(a) + BLOCK_HEADER := size]
  {
    hide Live, Span;
    var p := addr + Span(a) + BLOCK_HEADER;
    LiveThree(a, x, b, addr);
    LiveThree(a, m, b, addr);
    NotLiveOutside(a, addr, p);
    NotLiveOutside(b, addr + Span(a) + Span(m), p);
  }

  lemma RemoveMiddle(a: map<nat, nat>, b: map<nat, nat>, p: nat, v: nat)
    requires p !in a && p !in b
    ensures a + map[] + b == (a + map[p := v] + b) - {p}
  {
  }

  /** The converse: replacing a run with one live payload by one without. */
  lemma LiveReplaced(a: seq<Block>, x: seq<Block>, m: seq<Block>, b: seq<Block>, addr: nat, p: nat, size: nat)
    requires Span(x) == Span(m)
    requires Live(x, addr + Span(a)) == map[p := size]
    requires Live(m, addr + Span(a)) == map[]
    requires addr + Span(a) + BLOCK_HEADER <= p <= addr + Span(a) + Span(x)
    ensures Live(a + m + b, addr) == Live(a + x + b, addr) - {p}
  {
    var here := addr + Span(a);
    LiveThree(a, x, b, addr);
    LiveThree(a, m, b, addr);
    NotLiveOutside(a, addr, p);
    NotLiveOutside(b, here + Span(x), p);
    RemoveMiddle(Live(a, addr), Live(b, here + Span(x)), p, size);
  }

  // ---------------------------------------------------------------- what allocating keeps

  lemma CutShape(b: Block, n: nat, chunkSize: nat, bounded: bool, addr: nat)
    requires Fits(b, n) && n > 0 && n % BLOCK_HEADER == 0 && addr % BLOCK_HEADER == 0
    ensures var m := Cut(b, n, chunkSize, bounded);
      && m != [] && !m[0].avail && m[0].size >= n && AllPositive(m)
      && Span(m) == Span([b]) && Aligned(m, addr)
      && Live(m, addr) == map[addr + BLOCK_HEADER := m[0].size]
      && LiveBytes(m) == m[0].size
      && |m| <= 2 && (|m| == 2 ==> m[1].avail)
  {
    var m := Cut(b, n, chunkSize, bounded);
    OneBlock(b, addr);
    OneBlock(m[0], addr);
    if |m| == 2 {
      OneBlock(m[1], addr + BLOCK_HEADER + n);
      TwoBlocks(m[0], m[1], addr);
      assert m == [m[0], m[1]];
    } else {
      assert m == [m[0]];
    }
  }

  /** Allocation keeps the tiling, the alignment and the separation of free blocks. */
  lemma ForkKeeps(bs: seq<Block>, i: nat, n: nat, chunkSize: nat, bounded: bool, base: nat)
    requires i < |bs| && Fits(bs[i], n) && n > 0 && n % BLOCK_HEADER == 0
    requires Tiles(bs, base, chunkSize) && Aligned(bs, base + FirstBlock(base))
    ensures var cs := Fork(bs, i, n, chunkSize, bounded);
      && Tiles(cs, base, chunkSize) && Aligned(cs, base + FirstBlock(base))
      && (NoAdjacentFree(bs) ==> NoAdjacentFree(cs))
  {
    var m := Cut(bs[i], n, chunkSize, bounded);
    var start := base + FirstBlock(base);
    var a, b := bs[..i], bs[i + 1..];
    assert bs == a + [bs[i]] + b;
    ReplaceSpan(a, [bs[i]], [bs[i]], b, start);
    CutShape(bs[i], n, chunkSize, bounded, start + Span(a));
    ReplaceSpan(a, [bs[i]], m, b, start);
    ReplaceTiles(a, [bs[i]], m, b, base, chunkSize);
  }

  /** Allocation adds exactly one payload, of at least the size asked for. */
  lemma ForkLive(bs: seq<Block>, i: nat, n: nat, chunkSize: nat, bounded: bool, base: nat)
    requires i < |bs| && Fits(bs[i], n) && n > 0 && n % BLOCK_HEADER == 0
    requires Aligned(bs, base + FirstBlock(base))
    ensures var cs := Fork(bs, i, n, chunkSize, bounded);
      && i < |cs| && Off(base, cs, i) == Off(base, bs, i) && !cs[i].avail && cs[i].size >= n
      && LiveBytes(cs) == LiveBytes(bs) + cs[i].size
      && PayloadAt(bs, i, base) !in Live(bs, base + FirstBlock(base))
      && Live(cs, base + FirstBlock(base)) == Live(bs, base + FirstBlock(base))[PayloadAt(bs, i, base) := cs[i].size]
  {
    var m := Cut(bs[i], n, chunkSize, bounded);
    var start := base + FirstBlock(base);
    var a, b := bs[..i], bs[i + 1..];
    assert bs == a + [bs[i]] + b;
    ReplaceSpan(a, [bs[i]], [bs[i]], b, start);
    CutShape(bs[i], n, chunkSize, bounded, start + Span(a));
    ReplaceSums(a, [bs[i]], m, b);
    LiveInserted(a, [bs[i]], m, b, start, m[0].size);
    assert Fork(bs, i, n, chunkSize, bounded)[..i] == a;
  }

  /** What is lost inside a live block: nothing, or at most a tenth of the chunk. */
  lemma ForkSlack(bs: seq<Block>, i: nat, n: nat, chunkSize: nat)
    requires i < |bs| && Fits(bs[i], n)
    ensures Fork(bs, i, n, chunkSize, true)[i].size - n <= Max(BLOCK_HEADER, chunkSize / 10)
  {
  }

  /** A remainder becomes a block of its own exactly if the category is bounded, its payload is not empty and it is more
      than a tenth of the chunk; otherwise the whole block is served. */
  lemma ForkSplitsIff(bs: seq<Block>, i: nat, n: nat, chunkSize: nat, bounded: bool)
    requires i < |bs| && Fits(bs[i], n)
    ensures var cs, rest := Fork(bs, i, n, chunkSize, bounded), bs[i].size - n;
      if bounded && rest > 24 && rest > chunkSize / 10 then
        cs == bs[..i] + [Block(n, false), Block(rest - 24, true)] + bs[i + 1..]
      else
        cs == bs[..i] + [Block(bs[i].size, false)] + bs[i + 1..]
  {
  }

  // ---------------------------------------------------------------- what freeing keeps

  /** The blocks a free merges: at most a free one, the freed one, a free one. */
  lemma RunShape(bs: seq<Block>, i: nat)
    requires i < |bs| && !bs[i].avail
    ensures var run := bs[RunStart(bs, i)..RunEnd(bs, i)];
      && bs == bs[..RunStart(bs, i)] + run + bs[RunEnd(bs, i)..]
      && Span(run) == BLOCK_HEADER + CombinedSize(bs, i)
      && LiveBytes(run) == bs[i].size
      && MaxAvail(run) <= CombinedSize(bs, i)
  {
    var p, q := RunStart(bs, i), RunEnd(bs, i);
    var run := bs[p..q];
    OneBlock(bs[i], 0);
    if PrevFree(bs, i) {
      OneBlock(bs[i - 1], 0);
      TwoBlocks(bs[i - 1], bs[i], 0);
      assert bs[p..i + 1] == [bs[i - 1], bs[i]];
    } else {
      assert bs[p..i + 1] == [bs[i]];
    }
    if NextFree(bs, i) {
      OneBlock(bs[i + 1], 0);
      assert run == bs[p..i + 1] + [bs[i + 1]];
      SpanConcat(bs[p..i + 1], [bs[i + 1]]);
      LiveBytesConcat(bs[p..i + 1], [bs[i + 1]]);
      MaxAvailConcat(bs[p..i + 1], [bs[i + 1]]);
    }
  }

  /** The payload of the freed block is the only one in the run it merges. */
  lemma RunLive(bs: seq<Block>, i: nat, base: nat)
    requires i < |bs| && !bs[i].avail
    ensures Live(bs[RunStart(bs, i)..RunEnd(bs, i)], base + Off(base, bs, RunStart(bs, i)))
         == map[PayloadAt(bs, i, base) := bs[i].size]
  {
    var p := RunStart(bs, i);
    var run, addr := bs[p..RunEnd(bs, i)], base + Off(base, bs, p);
    OneBlock(bs[i], base + Off(base, bs, i));
    if PrevFree(bs, i) {
      assert p == i - 1;
      assert bs[p..i + 1] == [bs[i - 1], bs[i]];
      OffStep(base, bs, p);
      OneBlock(bs[p], addr);
      TwoBlocks(bs[p], bs[i], addr);
    } else {
      assert bs[p..i + 1] == [bs[i]];
    }
    if NextFree(bs, i) {
      OneBlock(bs[i + 1], addr + Span(bs[p..i + 1]));
      assert run == bs[p..i + 1] + [bs[i + 1]];
      LiveConcat(bs[p..i + 1], [bs[i + 1]], addr);
    }
  }

  lemma RunIndices(bs: seq<Block>, i: nat)
    requires i < |bs|
    ensures RunStart(bs, i) <= i < RunEnd(bs, i) <= |bs| && CombinedSize(bs, i) >= bs[i].size
  {
  }

  lemma RunPayload(base: nat, bs: seq<Block>, i: nat)
    requires i < |bs|
    ensures Off(base, bs, RunStart(bs, i)) <= Off(base, bs, i)
    ensures Off(base, bs, i) + bs[i].size <= Off(base, bs, RunStart(bs, i)) + CombinedSize(bs, i)
  {
    if PrevFree(bs, i) { OffStep(base, bs, i - 1); }
  }

  /** Freeing keeps the tiling and the alignment. */
  lemma ReleaseKeeps(bs: seq<Block>, i: nat, chunkSize: nat, base: nat)
    requires i < |bs| && !bs[i].avail
    requires Tiles(bs, base, chunkSize) && Aligned(bs, base + FirstBlock(base))
    ensures Tiles(Release(bs, i), base, chunkSize) && Aligned(Release(bs, i), base + FirstBlock(base))
  {
    hide CombinedSize, RunStart, RunEnd;
    RunShape(bs, i);
    RunIndices(bs, i);
    var a, b := bs[..RunStart(bs, i)], bs[RunEnd(bs, i)..];
    var run, m := bs[RunStart(bs, i)..RunEnd(bs, i)], [Block(CombinedSize(bs, i), true)];
    assert bs[i] in bs;
    OneBlock(m[0], base + Off(base, bs, RunStart(bs, i)));
    ReplaceSpan(a, run, m, b, base + FirstBlock(base));
    ReplaceTiles(a, run, m, b, base, chunkSize);
  }

  /** The merges leave no two free blocks side by side. */
  lemma ReleaseSeparates(bs: seq<Block>, i: nat)
    requires i < |bs| && NoAdjacentFree(bs)
    ensures NoAdjacentFree(Release(bs, i))
  {
  }

  /** Freeing removes exactly the freed payload; the cached maximum only has to meet the merged size. */
  lemma ReleaseLive(bs: seq<Block>, i: nat, base: nat)
    requires i < |bs| && !bs[i].avail
    ensures LiveBytes(Release(bs, i)) == LiveBytes(bs) - bs[i].size
    ensures MaxAvail(Release(bs, i)) == Max(MaxAvail(bs), CombinedSize(bs, i))
    ensures var start := base + FirstBlock(base);
      Live(Release(bs, i), start) == Live(bs, start) - {PayloadAt(bs, i, base)}
  {
    hide FirstBlock, RunStart, RunEnd, CombinedSize, Live, MaxAvail, LiveBytes, Span;
    RunIndices(bs, i);
    RunShape(bs, i);
    var p := RunStart(bs, i);
    var start := base + FirstBlock(base);
    var a, b := bs[..p], bs[RunEnd(bs, i)..];
    var run, m := bs[p..RunEnd(bs, i)], [Block(CombinedSize(bs, i), true)];
    RunLive(bs, i, base);
    RunPayload(base, bs, i);
    OneBlock(m[0], start + Span(a));
    ReplaceSums(a, run, m, b);
    ReplaceSums(a, run, run, b);
    LiveReplaced(a, run, m, b, start, PayloadAt(bs, i, base), bs[i].size);
  }

  // ---------------------------------------------------------------- alloc and free undo each other

  /** Freeing a block just served restores the whole layout, whether or not it split. */
  lemma ReleaseUndoesFork(bs: seq<Block>, i: nat, n: nat, chunkSize: nat)
    requires i < |bs| && Fits(bs[i], n) && NoAdjacentFree(bs)
    ensures i < |Fork(bs, i, n, chunkSize, true)|
    ensures Release(Fork(bs, i, n, chunkSize, true), i) == bs
  {
  }

  /** The single free block that initialising a chunk makes. */
  function InitialBlocks(base: nat, chunkSize: nat): seq<Block>
    requires chunkSize >= FirstBlock(base) + BLOCK_HEADER
  {
    [Block(chunkSize - FirstBlock(base) - BLOCK_HEADER, true)]
  }

  lemma InitialMaxAvail(base: nat, chunkSize: nat)
    requires chunkSize >= FirstBlock(base) + BLOCK_HEADER
    ensures MaxAvail(InitialBlocks(base, chunkSize)) == chunkSize - FirstBlock(base) - BLOCK_HEADER
  {
  }

  /** A chunk without live payloads is as initialised, whatever happened in it before. */
  lemma DrainedIsInitial(bs: seq<Block>, chunkSize: nat, base: nat)
    requires Tiles(bs, base, chunkSize) && NoAdjacentFree(bs)
    ensures chunkSize >= FirstBlock(base) + BLOCK_HEADER
    ensures Live(bs, base + FirstBlock(base)) == map[] <==> bs == InitialBlocks(base, chunkSize)
  {
    LiveEmptyIffAllFree(bs, base + FirstBlock(base));
    if Live(bs, base + FirstBlock(base)) == map[] {
      assert |bs| == 1;
      assert bs == [bs[0]];
    }
    OneBlock(bs[0], base + FirstBlock(base));
  }
}

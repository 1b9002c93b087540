/** Which category serves a request, and how big a fresh chunk has to be.

    Sizes are 32 bit words, so every sum is taken modulo `2^32`. */
module Sizing {
  import opened Blocks
  import opened Variants
  import Bits

  const U32_RANGE: nat := 0x1_0000_0000
  const PAGE: nat := 4096
  const CATEGORIES: nat := 6
  /** `MFListAllocCateg_More`: one chunk per allocation. */
  const DEDICATED: nat := 5
  const CATEG_SIZES: seq<nat> := [16384, 32768, 131072, 1048576, 8388608, 0]

  /** The largest request for which none of the 32 bit sums wraps. */
  function LargestRequest(v: Variant): nat {
    if v.AsWritten? then 4294963104 else 4294963080
  }

  function AddU32(a: nat, b: nat): nat {
    (a + b) % U32_RANGE
  }

  /** `ALIGN(U32, n, sizeof(MFListBlock))`: the inner sum may wrap. */
  function RoundU32(n: nat): nat {
    AddU32(n, BLOCK_HEADER - 1) / BLOCK_HEADER * BLOCK_HEADER
  }

  /** The request, padded by one header's worth and rounded up to whole headers. */
  function Rounded(request: nat): nat {
    RoundU32(AddU32(request, BLOCK_HEADER))
  }

  /** `(U32) PAGE_ALIGN(n)`: rounded up to whole pages on 64 bits, then cut to 32. */
  function PageAlignU32(n: nat): nat {
    Bits.Align(n, PAGE) % U32_RANGE
  }

  /** The code masks instead of dividing, in a word of `w` bits; on any word wider than 32 that is the same. */
  lemma PageAlignIsMask(n: nat, w: nat)
    requires n < U32_RANGE && w > 32
    ensures PAGE == Bits.Pow2(12) <= Bits.Pow2(w)
    ensures PageAlignU32(n) == Bits.Pow2Align(n, PAGE, w) % U32_RANGE
  {
    WordIsWide(w);
    Bits.Pow2AlignIsAlign(n, 12, w);
  }

  lemma WordIsWide(w: nat)
    requires w > 32
    ensures PAGE == Bits.Pow2(12) <= Bits.Pow2(w)
    ensures 2 * U32_RANGE <= Bits.Pow2(w)
  {
    Bits.Pow2Sum(12, 12);
    Bits.Pow2Sum(24, 9);
    Bits.Pow2Monotone(33, w);
  }

  datatype Requirements = Requirements(categ: nat, chunkSize: nat)

  /** What rounding up the start of the first block may take; as written, nothing is set aside for it. */
  function Reserve(v: Variant): nat {
    if v.AsWritten? then 0 else BLOCK_HEADER - 1  // Repair
  }

  function ChunkNeed(size: nat, v: Variant): nat {
    AddU32(AddU32(AddU32(size, CHUNK_HEADER), BLOCK_HEADER), Reserve(v))
  }

  /** First category from `i` on whose size is at least four times the need. */
  function CategoryFrom(need: nat, i: nat): (c: nat)
    requires i <= CATEGORIES
    ensures i <= c <= CATEGORIES
    ensures c < CATEGORIES ==> need <= CATEG_SIZES[c] / 4
    ensures forall j :: i <= j < c ==> need > CATEG_SIZES[j] / 4
    decreases CATEGORIES - i
  {
    if i == CATEGORIES then CATEGORIES
    else if need <= CATEG_SIZES[i] / 4 then i
    else CategoryFrom(need, i + 1)
  }

  function Required(size: nat, v: Variant): (r: Requirements)
    ensures r.categ < CATEGORIES
  {
    var need := ChunkNeed(size, v);
    var c := CategoryFrom(need, 0);
    if c < CATEGORIES then Requirements(c, CATEG_SIZES[c])
    else Requirements(DEDICATED, PageAlignU32(need))
  }

  /** What is required for a size, in numbers: the smallest of five sizes that is at least four times what is needed,
      under its index; if there is none, whole pages, unless rounding up to them wraps. */
  lemma RequiredIs(size: nat, v: Variant)
    ensures var sizes := [16384, 32768, 131072, 1048576, 8388608];
      var need := (size + 56 + if v.AsWritten? then 0 else 23) % 0x1_0000_0000;
      var r := Required(size, v);
      if 4 * need <= 8388608 then
        r.categ < 5 && r.chunkSize == sizes[r.categ] >= 4 * need && forall j :: 0 <= j < r.categ ==> sizes[j] < 4 * need
      else
        && r.categ == 5
        && (need <= 0xFFFF_F000 ==> need <= r.chunkSize < need + 4096 && r.chunkSize % 4096 == 0)
        && (need > 0xFFFF_F000 ==> r.chunkSize == 0)
  {
    var need := ChunkNeed(size, v);
    NeedIs(size, v);
    PageAlignIs(need);
    hide ChunkNeed, PageAlignU32;
    var c := CategoryFrom(need, 0);
    assert CATEG_SIZES[0] / 4 == 4096 && CATEG_SIZES[1] / 4 == 8192 && CATEG_SIZES[2] / 4 == 32768;
    assert CATEG_SIZES[3] / 4 == 262144 && CATEG_SIZES[4] / 4 == 2097152 && CATEG_SIZES[5] / 4 == 0;
  }

  /** Sums that wrap on the way come to the sum that wraps at the end. */
  lemma NeedIs(size: nat, v: Variant)
    ensures ChunkNeed(size, v) == (size + 56 + if v.AsWritten? then 0 else 23) % U32_RANGE
  {
    WrapTwice(size, CHUNK_HEADER, BLOCK_HEADER);
    WrapTwice(size, CHUNK_HEADER + BLOCK_HEADER, Reserve(v));
  }

  lemma WrapTwice(a: nat, b: nat, c: nat)
    ensures AddU32(AddU32(a, b), c) == AddU32(a, b + c)
  {
    var q := (a + b) / U32_RANGE;
    assert a + b == U32_RANGE * q + AddU32(a, b);
    Bits.ModUnique(a + b + c, U32_RANGE, q + (AddU32(a, b) + c) / U32_RANGE, AddU32(AddU32(a, b), c));
  }

  /** `mflist__get_chunk_requirements`, loop and all. */
  method GetChunkRequirements(size: nat, v: Variant) returns (r: Requirements)
    ensures r == Required(size, v)
    ensures var sizes := [16384, 32768, 131072, 1048576, 8388608];
      var need := (size + 56 + if v.AsWritten? then 0 else 23) % 0x1_0000_0000;
      if 4 * need <= 8388608 then
        r.categ < 5 && r.chunkSize == sizes[r.categ] >= 4 * need && forall j :: 0 <= j < r.categ ==> sizes[j] < 4 * need
      else
        && r.categ == 5
        && (need <= 0xFFFF_F000 ==> need <= r.chunkSize < need + 4096 && r.chunkSize % 4096 == 0)
        && (need > 0xFFFF_F000 ==> r.chunkSize == 0)
  {
    RequiredIs(size, v);
    var need := ChunkNeed(size, v);
    r := Requirements(DEDICATED, PageAlignU32(need));
    var i := 0;
    while i < CATEGORIES
      invariant 0 <= i <= CATEGORIES
      invariant r == Requirements(DEDICATED, PageAlignU32(need))
      invariant CategoryFrom(need, 0) == CategoryFrom(need, i)
      decreases CATEGORIES - i
    {
      if need <= CATEG_SIZES[i] / 4 {
        r := Requirements(i, CATEG_SIZES[i]);
        break;
      }
      i := i + 1;
    }
  }

  /** A fresh chunk of the chosen category can serve the request it was mapped for. */
  predicate FreshChunkServes(request: nat, base: nat, v: Variant) {
    var size := Rounded(request);
    size >= request && Required(size, v).chunkSize >= size + FirstBlock(base) + BLOCK_HEADER
  }

  /** The category's fresh chunk is big enough exactly for requests on which no sum wraps: as written, on bases where
      rounding the first block changes nothing; as repaired, on all bases. */
  lemma FreshChunkServesIff(request: nat, base: nat, v: Variant)
    requires 0 < request < U32_RANGE && (v.AsWritten? ==> FirstBlock(base) == CHUNK_HEADER)
    ensures FreshChunkServes(request, base, v) <==> request <= LargestRequest(v)
    ensures LargestRequest(v) == if v.AsWritten? then 4294963104 else 4294963080
  {
    hide Rounded, Required, ChunkNeed, FirstBlock;
    var size := Rounded(request);
    if request + 2 * BLOCK_HEADER - 1 >= U32_RANGE {
      RoundingWraps(request);
    } else {
      RoundedIs(request);
      if size + CHUNK_HEADER + BLOCK_HEADER + Reserve(v) >= U32_RANGE {
        NeedWraps(size, v);
      } else {
        NeedFits(size, v);
      }
    }
  }

  lemma RoundingWraps(request: nat)
    requires request < U32_RANGE <= request + 2 * BLOCK_HEADER - 1
    ensures Rounded(request) < request
  {
  }

  /** A need that wraps looks tiny and is sent to the first category. */
  lemma NeedWraps(size: nat, v: Variant)
    requires size < U32_RANGE <= size + CHUNK_HEADER + BLOCK_HEADER + Reserve(v)
    ensures Required(size, v) == Requirements(0, 16384)
  {
    var a := AddU32(size, CHUNK_HEADER);
    var b := AddU32(a, BLOCK_HEADER);
    AddWraps(size, CHUNK_HEADER);
    AddWraps(a, BLOCK_HEADER);
    AddWraps(b, Reserve(v));
    hide AddU32, PageAlignU32;
    assert ChunkNeed(size, v) < 4096;
  }

  lemma AddWraps(a: nat, b: nat)
    requires a < U32_RANGE && b < U32_RANGE
    ensures AddU32(a, b) == if a + b < U32_RANGE then a + b else a + b - U32_RANGE
  {
  }

  lemma PageAlignIs(n: nat)
    requires n < U32_RANGE
    ensures n <= U32_RANGE - PAGE ==> n <= PageAlignU32(n) < n + PAGE && PageAlignU32(n) % PAGE == 0
    ensures n > U32_RANGE - PAGE ==> PageAlignU32(n) == 0
  {
  }

  lemma NeedFits(size: nat, v: Variant)
    requires size + CHUNK_HEADER + BLOCK_HEADER + Reserve(v) < U32_RANGE
    ensures ChunkNeed(size, v) == size + CHUNK_HEADER + BLOCK_HEADER + Reserve(v)
    ensures Required(size, v).chunkSize >= ChunkNeed(size, v) <==> ChunkNeed(size, v) <= U32_RANGE - PAGE
    ensures ChunkNeed(size, v) <= U32_RANGE - PAGE ==>
      var req := Required(size, v);
      if req.categ == DEDICATED then req.chunkSize < ChunkNeed(size, v) + PAGE && req.chunkSize % PAGE == 0
      else req.chunkSize == CATEG_SIZES[req.categ] >= 4 * ChunkNeed(size, v)
    ensures ChunkNeed(size, v) > U32_RANGE - PAGE ==> Required(size, v) == Requirements(DEDICATED, 0)
  {
    var need := ChunkNeed(size, v);
    assert need == size + CHUNK_HEADER + BLOCK_HEADER + Reserve(v);
    PageAlignIs(need);
    hide PageAlignU32, ChunkNeed;
    var c := CategoryFrom(need, 0);
    assert CATEG_SIZES[5] == 0;
    if need > U32_RANGE - PAGE {
      assert c == CATEGORIES;
    }
  }

  lemma RoundedIs(request: nat)
    requires request + 2 * BLOCK_HEADER - 1 < U32_RANGE
    ensures var size := Rounded(request);
      && request + BLOCK_HEADER <= size < request + 2 * BLOCK_HEADER
      && size % BLOCK_HEADER == 0
  {
  }
}

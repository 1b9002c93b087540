# dpcrt: a verified model of its allocators, lexer, streams and small algorithms

dpcrt is a C runtime library. This project models, in Dafny, the parts of it that carry real state and real
arithmetic, and proves what they are for:

- **MFList** (`Blocks`, `Headers`, `ChunkCode`, `Sizing`, `MFListChunk`, `MFList`, `Heap`, `HeapRuns`, `AsWritten`):
  the segregated first-fit allocator with boundary tags, splitting, coalescing and a cached maximum per chunk.
- **MPool** (`MPool`, `Pools`): fixed-size blocks on a lazily initialised free list.
- **MArena and tokens** (`Arena`, `SinglePrecision`, `Tokens`): a byte stack filled in transactions, and the packed
  token layout in it.
- **Streams and lexer** (`Streams`, `Staging`, `Characters`, `Gates`, `TokenTable`, `Punctuators`, `Scanning`,
  `Tokenising`, `Turns`, `Lookahead`, `Lexer`, `Pipeline`): a refilled input buffer, a staging ring, the recognisers,
  and whole-input tokenising.
- **Levenshtein** (`EditScripts`, `Levenshtein`) and **Adler-32** (`Adler`), on the alignment and word arithmetic in
  `Bits`. `Options` and `Variants` hold two small datatypes.

## How the model is built

MFList is modelled in four layers that refine one another. `Blocks` gives a chunk as a list of blocks, with splitting
and merging as list operations. `Headers` and `ChunkCode` give the headers in memory at their offsets, with the
statements of the C code, and prove that they refine the list operations and that headers of a tiling pass the code's
own integrity check. `MFListChunk` and `MFList` are classes with the fields of the C structures, bytes included, whose
methods are proved against those functions. `Heap` is the whole allocator as a value; `HeapRuns` proves what holds
after every run of calls, and `MFList.Allocator` is proved to step exactly as `Heap` does.

The lexer is proved the same way: `Scanning`, `Tokenising` and `Turns` say what the recognisers, one call and a run of
calls make of a text, and their round trips and losslessness are proved there; the methods of `Lexer.LexerState`,
which work on the ring, the stream and the arena, are proved to do exactly that. Their contracts hold for every input:
`Gates` keeps track of which characters were read before and whether an invalid byte was among them, which is what
decides where the lexer stops and what it emits. Lemmas named `Clean...` say that on valid characters this makes no
difference.

## The code as written and the code as meant

In several places the code does not do what its own asserts, comments or headers say. There the model holds both: a
`Variant` parameter, or two members, distinguish the code as written from the code with the smallest repair, every
repaired statement is marked `Repair`, and for each difference a lemma says exactly when the code as written is right.
Where a lemma with a concrete input is named after it, that input is one on which the code goes wrong. The results
over whole runs are about the repaired code unless they are in the module `AsWritten`, which is about chunk bases
where rounding the first block changes nothing and requests for which no sum wraps; on all others the code as written
is shown to go wrong by the lemmas below.

| where | what the code does | exact statement |
|---|---|---|
| dpcrt_allocators.c:671 | the free guard is inverted: every free of a live block leaves early | `ChunkCode.FreeTakesEffect`, `AsWritten.FreeDoesNothing`, `AsWritten.NothingIsReused` |
| dpcrt_allocators.c:903-917 and 697-739 | neither splitting nor merging re-points the back link of the block behind | `ChunkCode.ForkAsWrittenIntact`, `ChunkCode.ReleaseAsWrittenIntact`, `Headers.BackLinkIff` |
| dpcrt_allocators.c:403 and 562 | the rounded start of the first block is not subtracted from its size, nor added to what a chunk needs | `ChunkCode.InitFitsIffGoodBase`, `ChunkCode.InitSpellsIff`, `ChunkCode.GoodBaseOfPage`, `Sizing.FreshChunkServesIff` |
| dpcrt_allocators.c:614-632 | deleting a chained chunk leaves the next chunk's back pointer | `MFList.Unlink` |
| dpcrt_allocators.c:679-694 | a dedicated block is never subtracted from the user total | `HeapRuns.StepAccounts`, `HeapRuns.UsedIsExactIff` |
| dpcrt_allocators.c:853 and 950-951 | 32-bit sums wrap for huge requests; as repaired these are refused | `Sizing.FreshChunkServesIff`, `Heap.AllocOutcome` |
| dpcrt_allocators.c:54 | an absolute address is taken modulo the block size | `Pools.AlignmentTestIff`, `Pools.FoundIff`, `Pools.Pool.Free` |
| dpcrt_allocators.c:318-326 | the asserts about sizes let sizes through that are of no use | `Pools.InitServesIff`, with `Pools.InitAssertsDoNotSuffice` |
| dpcrt_allocators.c:334 | the first chunk of a pool is not counted in its allocator total | `Pools.ChainAccounted`, `Pools.Pool.constructor` |
| dpcrt_allocators.c:233-245 | clearing a pool cuts its chain and leaves its totals | `Pools.Pool.Clear`, `Pools.ClearAccountsIff` |
| dpcrt_allocators.c:1258 | room is tested from the committed bytes, although writes go behind the staged ones | `Arena.RoomAsWrittenIff`, `Arena.CharsInsideIff` |
| dpcrt_allocators.c:1251-1292 | success is reported after one growth step, however many bytes were asked for | `Arena.SuccessAsWrittenIff`, with `Arena.OneStepIsTooSmall` |
| dpcrt_algorithms.c:14-43 | the rows are one entry too short | `Levenshtein.LevenshteinDistanceAsCoded` |
| dpcrt_lexer_core.h:87-98 | the wrapping macro in use has period 17 over 16 slots | `Staging.WalkIs` |
| dpcrt_lexer_core.h:70-82 | the test for a full ring counts modulo 16 with that macro, too | `Staging.StagingArea.IsFull` |
| dpcrt_lexer_core.h:102-108 and dpcrt_lexer_builtin_logic.c:282-284 | every unknown escape takes one more place of the ring, until it overruns | `Scanning.FitsIff`, with `Scanning.EscapesOverrunIff` |
| dpcrt_lexer_builtin_logic.c:282-284 | an unknown escape puts the look-ahead out of step | `Scanning.ReadAsMeantIff`, `Scanning.StopsAsMeantIff`, with `Scanning.UnknownEscapeLosesText` |
| dpcrt_lexer_builtin_logic.c:144-167 | a pair of hyphens takes the next character along, even if the comment ends with it | `Scanning.CommentReadIff`, with `Scanning.ThreeHyphensDoNotClose` |
| dpcrt_lexer.h:139-146 | length, line and column are signed, so a text of two gigabytes makes the walk go back | `Tokens.ReadsBackIff`, with `Tokens.LongTextWalksBack` and `Tokens.TwoGigabytesDoNotReadBack` |
| dpcrt_lexer.c:85-90 | without room for a header the call returns false and reports nothing, as at the end | `Lexer.LexerState.NextToken` |
| dpcrt_lexer_builtin_logic.c:656-910 | a hash or a dollar is never consumed, so the documented loop goes on until memory runs out | `Turns.EndsIffLexable`, `Tokenising.LosslessIff` |
| dpcrt_streams.c:126-144 | the last byte comes with a false flag | `Streams.IStream.ReadNextByte`, `Streams.ReadAllAsDocumented`, `Lexer.LexerState.Deque` |

For the free guard and the back links both readings are carried through to whole runs: `HeapRuns` has the repaired
code, and `AsWritten` proves that the code as it stands keeps its integrity check on every such run, with the maximum
it has stored, because it never reuses memory. The staging ring is proved for both macros at once: with the macro in
use, the seventeenth slot is the padding byte behind the array in the enclosing structure, and the queue still behaves
as a queue. Streams, recognisers and the alignment test of MPool are modelled as written.

Where code and comments disagree on smaller points, the model follows the code. Tokens are packed without the rounding
that dpcrt_lexer.h:215-218 describes; a left shift is `<<`, not `<<=` as in dpcrt_lexer.h; block headers are 24 bytes
on 64-bit targets, not 16 as in dpcrt_allocators.c:453; the backquote is an ordinary word character although it has a
token type.

Sizes are those of the 64-bit targets: 24 bytes for a block header and 32 for a chunk header of MFList, 16 bytes for
the fields of an MPool block, 128 for the header of a pool chunk, 4096 for a page.

The kernel is a parameter: a mapping call either fails or gives a region disjoint from all others, holding anything,
and an arena comes with the answers to all its requests for more memory. Reading a file gives any non-empty prefix of
at most 4096 bytes of what is left, or the end. Characters are Dafny characters with codes below 256, compared as the
signed `char` of the code.

## Model

| member | source | states |
|---|---|---|
| Bits.AlignIsLeastMultiple | dpcrt_utils.h:61 | `ALIGN` gives the least multiple of the alignment that is not below its argument |
| Bits.MaskRoundsDown | dpcrt_utils.h:71 | and-ing with the complement of the low bits rounds a word down to a multiple of a power of two |
| Bits.Pow2AlignIsAlign | dpcrt_utils.h:71 | the mask form `POW2_ALIGN` equals the division form `ALIGN` for powers of two, as long as the sum does not leave the word |
| Sizing.PageAlignIsMask | dpcrt_allocators.c:857 | rounding a 32-bit size up to pages by mask is rounding up by division, wrapping included |
| Sizing.GetChunkRequirements | dpcrt_allocators.c:849-877 | as written and repaired, for every size, in numbers: the loop returns the smallest of 16384, 32768, 131072, 1048576 and 8388608 that is at least four times the need, under its index, or, if there is none, the dedicated category with the need rounded up to whole pages; the need is the size and the headers, taken modulo 2^32 |
| Sizing.RoundedIs | dpcrt_allocators.c:950-951 | a request is padded by one header and rounded up to the next multiple of 24 |
| Sizing.FreshChunkServesIff | dpcrt_allocators.c:849-877 | for every 32-bit request: a fresh chunk of the chosen size has room for the rounded request, as written on bases where rounding the first block changes nothing exactly if the request is at most 4294963104, and, with room set aside for the rounding, on every base exactly if it is at most 4294963080; beyond that the 32-bit sums wrap |
| Sizing.RoundingWraps | dpcrt_allocators.c:950-951 | above the bound of rounding, the wrapped request is smaller than what was asked for |
| Sizing.NeedFits | dpcrt_allocators.c:853 | while the sum of block and headers does not wrap, the chunk covers it exactly if it is at most 2^32 minus a page, and a dedicated chunk exceeds it by less than a page |
| Sizing.NeedWraps | dpcrt_allocators.c:853-857 | a sum that wraps looks tiny and is sent to the smallest category |
| Blocks.MaxAvailIsMaximum | dpcrt_allocators.c:441-472 | the recursive maximum is an upper bound of the free payload sizes and, unless zero, is one of them |
| Blocks.FirstFit | dpcrt_allocators.c:1024-1041 | the scan returns the lowest free block that is big enough, or the number of blocks if there is none |
| Blocks.FitIffMaxAvail | dpcrt_allocators.c:977-981 | the cached maximum is a complete index: some block fits exactly if the maximum is at least the size |
| Blocks.ForkKeeps | dpcrt_allocators.c:880-936 | splitting or handing out a free block keeps an exact aligned tiling of the chunk without adjacent free blocks |
| Blocks.ForkLive | dpcrt_allocators.c:880-936 | the served payload was not live before; it becomes the one new live payload, at least as big as asked, and all others stay as they were |
| Blocks.ForkSlack | dpcrt_allocators.c:896-901 | in a bounded category the served block exceeds the request by at most one header or a tenth of the chunk, whichever is larger |
| Blocks.ForkSplitsIff | dpcrt_allocators.c:896-933 | a remainder becomes a block of its own exactly if the category is bounded, it is more than a header and more than a tenth of the chunk; otherwise the whole block is served |
| Blocks.ReleaseKeeps | dpcrt_allocators.c:696-739 | all four merge cases keep the exact aligned tiling |
| Blocks.ReleaseSeparates | dpcrt_allocators.c:696-739 | after any of the four merge cases no two free blocks are adjacent |
| Blocks.ReleaseLive | dpcrt_allocators.c:659-750 | a free removes exactly the freed payload from the live ones, lowers the live bytes by its size, and raises the maximum exactly to the merged size if that is bigger |
| Blocks.ReleaseUndoesFork | dpcrt_allocators.c:659-936 | freeing a block that was just served from a list without adjacent free blocks restores the list, whether or not serving split it |
| Blocks.LiveSeparated | dpcrt_allocators.c:880-936 | two live payloads of a chunk have a whole header between them |
| Blocks.DrainedIsInitial | dpcrt_allocators.c:548-566 | a tiling without adjacent free blocks has no live payload exactly if it is the single free block of a freshly initialised chunk |
| Headers.SpellsPasses | dpcrt_allocators.c:437-474 | headers that spell out a tiling pass every assert of the integrity check, with the true maximum as cached maximum |
| Headers.PassedMeans | dpcrt_allocators.c:437-474 | conversely, any headers that pass the check have such a walk |
| Headers.SoundPasses | dpcrt_allocators.c:437-474 | any headers pass the check if a walk from the first block visits blocks that name the chunk as parent, lie inside it at multiples of 24, start where the one before ends and link back to it, up to the end of the chunk, and the cached maximum is that of their free sizes |
| Headers.StaleLinkCaught | dpcrt_allocators.c:465-469 | a wrong back link anywhere behind the first block fails the integrity check |
| Headers.BackLinkIff | dpcrt_allocators.c:465-469 | rewriting one back link of a sound chunk keeps the integrity check exactly if the link names the preceding block |
| Headers.HeaderAt | dpcrt_allocators.c:409-425 | in a sound chunk the size field of block i leads to block i + 1, or to null behind the last block |
| Headers.FitFromIs | dpcrt_allocators.c:1021-1044 | in a sound chunk the walk over the headers stops at the block where the first fit of the block list is |
| Headers.RenewedMaxIs | dpcrt_allocators.c:1018-1082 | the cached maximum that serving a block writes, from a loop over the old headers in front of it and a second one over the new headers from it on, is the true maximum of the new blocks, if those in front stayed as they were |
| ChunkCode.InitFitsIffGoodBase | dpcrt_allocators.c:403-562 | the first block made by initialising ends inside the chunk exactly if rounding up its start changed nothing; as repaired it always does |
| ChunkCode.GoodBaseOfPage | dpcrt_allocators.c:403-562 | of the page addresses one in three is such a base |
| ChunkCode.InitSpellsIff | dpcrt_allocators.c:548-566 | the initialised headers spell out the single free block on every base as repaired, and as written exactly on those bases |
| ChunkCode.ForkRefines | dpcrt_allocators.c:880-936 | with the back link repaired, splitting headers in memory is splitting the block list |
| ChunkCode.ForkAsWrittenIntact | dpcrt_allocators.c:903-917 | splitting as written keeps the integrity check exactly if nothing is split off or the block was the last one |
| ChunkCode.ReleaseRefines | dpcrt_allocators.c:696-739 | with the back link repaired, merging headers in memory is merging in the block list, in all four cases |
| ChunkCode.ReleaseAsWrittenIntact | dpcrt_allocators.c:696-739 | merging as written keeps the integrity check exactly if no block was merged or no block follows the merged run |
| ChunkCode.FreeTakesEffect | dpcrt_allocators.c:669-674 | on a live block, freeing changes the headers only with the guard repaired; as written it changes nothing |
| MFListChunk.ChunkObj.constructor | dpcrt_allocators.c:548-580 | a new chunk, on any base, is one free block, with the cached maximum of that block |
| MFListChunk.ChunkObj.AssertIntegrity | dpcrt_allocators.c:437-474 | the walk reports success exactly if the headers pass all asserts and the cached maximum is the accumulated one |
| MFListChunk.ChunkObj.SuballocFork | dpcrt_allocators.c:880-936 | the in-place split makes the block list of `Fork`, changes no byte of another live payload, and zeroes the payload if asked to |
| MFListChunk.ChunkObj.FindFit | dpcrt_allocators.c:1021-1044 | the first loop stops at the first fitting block, so that its asserts hold, with the maximum over the blocks it passed |
| MFListChunk.ChunkObj.Rescan | dpcrt_allocators.c:1070-1082 | the second loop brings the cached maximum back to the true one |
| MFListChunk.ChunkObj.Carve | dpcrt_allocators.c:1009-1086 | serving a request inside a chunk keeps the chunk sound, takes the first fit, and touches no other live payload |
| MFListChunk.ChunkObj.Merge | dpcrt_allocators.c:686-749 | freeing inside a chunk makes the block list of `Release`, keeps the chunk sound, and changes no byte of a payload that stays live |
| Heap.RequestServable | dpcrt_allocators.c:849-877 | every request up to the largest one is rounded and given a category whose fresh chunk can serve it |
| Heap.AllocOutcome | dpcrt_allocators.c:939-1087 | an allocation fails exactly for the empty request, for one whose sums would wrap, or if no block of the category is big enough and mapping fails; then nothing changes |
| Heap.AllocLands | dpcrt_allocators.c:955-1041 | a successful allocation carves the first fitting block of the first chunk that fits, or else of one fresh chunk chained last |
| Heap.AllocKeeps | dpcrt_allocators.c:939-1087 | an allocation keeps all chunks of all chains sound and their mappings disjoint |
| Heap.FreeKeeps | dpcrt_allocators.c:659-759 | so does freeing any live block, in bounded categories and in the dedicated one |
| Heap.AllocLive | dpcrt_allocators.c:939-1087 | an allocation adds one live payload, at least the request plus a header and at most the rounded request plus a tenth of the chunk or less than a page, at an address where none was; all others stay |
| Heap.FreeLive | dpcrt_allocators.c:659-759 | a free removes exactly the freed payload |
| Heap.LivePayloadsApart | dpcrt_allocators.c:939-1087 | no two live payloads overlap, in one chunk or in two |
| HeapRuns.StepKeeps | dpcrt_allocators.c:659-1087 | every allowed call keeps: chunks sound, live payloads exactly those held by clients and big enough, totals equal to sums |
| HeapRuns.StepHolds | dpcrt_allocators.c:659-1091 | an allocation that succeeds gives an address that nobody held, for what was asked; after a free nothing lives at the address |
| HeapRuns.RunKeeps | dpcrt_allocators.c:659-1087 | so does every run of calls |
| HeapRuns.RunsServe | dpcrt_allocators.c:659-1087 | after any run from an empty allocator, every address a client holds is a payload inside one chunk, at least as big as asked and hardly bigger, apart from all others held |
| HeapRuns.DrainedChunkIsFresh | dpcrt_allocators.c:548-750 | after any history, a chunk of a bounded category is the single free block with the initial maximum exactly if nobody holds memory of it |
| HeapRuns.FreeingAll | dpcrt_allocators.c:659-750 | freeing everything held, in any order, is a permitted run after which nothing is held |
| HeapRuns.FreeingAllRestores | dpcrt_allocators.c:548-750 | freeing everything held, in any order and after any history, brings every chunk that stays mapped back to the single free block it started with, and leaves no dedicated chunk |
| HeapRuns.FreeUndoesMalloc | dpcrt_allocators.c:659-1087 | when a chunk already in its chain serves a request, freeing the result restores the whole heap, totals included |
| HeapRuns.AllocTotals | dpcrt_allocators.c:584-604 | allocating keeps the mapped total equal to the sum of chunk sizes and the user total equal to the live bytes plus what was lost before |
| HeapRuns.FreeTotals | dpcrt_allocators.c:675-694 | freeing does too, except that a dedicated block stays counted because the function returns before the subtraction |
| HeapRuns.StepAccounts | dpcrt_allocators.c:675-694 | one step makes the user total drift from the live bytes exactly if it frees a dedicated block |
| HeapRuns.DriftOverRuns | dpcrt_allocators.c:675-694 | over every run the drift never shrinks, and stays zero as long as no dedicated block is freed |
| HeapRuns.UsedIsExactIff | dpcrt_allocators.c:675-694 | from an empty allocator the user total equals the live bytes exactly if no dedicated block was ever freed |
| AsWritten.FreeDoesNothing | dpcrt_allocators.c:669-674 | as written, freeing a live block leaves all memory as it was |
| AsWritten.ForkOnStack | dpcrt_allocators.c:880-936 | where free memory only lies behind all live blocks, splitting as written gives sound headers of the split list |
| AsWritten.TargetIs | dpcrt_allocators.c:977-1044 | picking the chunk by the stored maxima and the block by walking the headers, as the code does, leads to the chunk and the block of the block lists |
| AsWritten.StepKeeps | dpcrt_allocators.c:659-1087 | every call of the code as it stands keeps chunks stacks of live blocks, with headers and stored maxima in step |
| AsWritten.LandedInStep | dpcrt_allocators.c:938-1091 | the chunk an allocation lands in spells out its new blocks, with the stored maximum renewed to the true one |
| AsWritten.RunKeeps | dpcrt_allocators.c:659-1091 | over every run of the code as it stands, on bases and for requests as said above, headers and stored maxima stay in step with the block lists |
| AsWritten.EveryCheckPasses | dpcrt_allocators.c:437-474 | after every such run, every chunk passes its integrity check, with the maximum that the code has stored for it |
| AsWritten.NothingIsReused | dpcrt_allocators.c:659-1087 | after every such run, a payload once handed out is still occupied |
| MFList.Unlink | dpcrt_allocators.c:614-632 | taking a chunk out of its chain leaves a soundly linked chain with the repair, and as written exactly if the chunk was the last |
| MFList.FindChunk | dpcrt_allocators.c:970-1002 | the walk stops at the first chunk whose cached maximum is big enough, or at the end with the last chunk at hand |
| MFList.Append | dpcrt_allocators.c:584-604 | a new chunk is linked behind the last one; the rest of the chain keeps its links |
| MFList.Allocator.constructor | dpcrt_allocators.c:842-846 | an empty allocator is sound |
| MFList.Allocator.ChainNewChunk | dpcrt_allocators.c:584-604 | chaining a mapped chunk keeps all chains linked and adds its size to the mapped total; a failed mapping changes nothing |
| MFList.Allocator.PickOrMap | dpcrt_allocators.c:955-1007 | the first chunk that fits is picked, or a fresh one chained; failure exactly if neither is possible |
| MFList.Allocator.ServeFrom | dpcrt_allocators.c:1009-1086 | serving from the picked chunk adds the size of the served block to the user total and touches no other live payload |
| MFList.Allocator.Malloc | dpcrt_allocators.c:939-1087 | the linked, mutated structure after an allocation is that of `Heap.Alloc`, the returned pointer is its address, no byte of a live payload has changed, and the payload is zero if asked for |
| MFList.Allocator.Free | dpcrt_allocators.c:659-759 | the structure after a free is that of `Heap.FreeAt`, and no byte of a payload that stays live has changed |
| MFList.Allocator.FreeBounded | dpcrt_allocators.c:675-750 | the same inside a bounded category, by merging |
| MFList.Allocator.FreeDedicated | dpcrt_allocators.c:679-683 | the same in the dedicated category, by unmapping the chunk |
| MFList.Allocator.DelChainedChunk | dpcrt_allocators.c:614-632 | a chunk is taken out of its chain, and its size leaves the mapped total |
| MPool.BlocksFromIs | dpcrt_allocators.c:86-100 | the blocks of a chunk are exactly the places, one block size apart, at which a block still fits |
| MPool.StandsFrame | dpcrt_allocators.h:77-84 | what lies in cells that are not on the lazy list does not matter to it |
| MPool.PopFlagged | dpcrt_allocators.c:103-130 | taking a flagged head and passing the flag on leaves a lazy list of the rest |
| MPool.PopLinked | dpcrt_allocators.c:103-130 | taking a linked head leaves a lazy list of the rest |
| MPool.PoolChunk.Init | dpcrt_allocators.c:151-158 | over any stale memory, one flag makes a lazy list of all blocks of the chunk in order |
| MPool.PoolChunk.constructor | dpcrt_allocators.c:161-173 | a freshly mapped chunk has all its blocks free |
| MPool.PoolChunk.MarkUsed | dpcrt_allocators.c:103-130 | the head of the lazy list is handed out zeroed, was free and is live now; what users left in live blocks stays |
| MPool.PoolChunk.MarkAvail | dpcrt_allocators.c:132-148 | a live block comes back on top of the stack, and what users left in the other live blocks stays |
| MPool.PoolChunk.UserWrites | dpcrt_allocators.h:75-87 | users may write anything into live blocks without hurting the list |
| Pools.AlignmentTestIff | dpcrt_allocators.c:53-57 | the alignment test on an address to be freed passes a block exactly if its chunk lies at a multiple of the block size |
| Pools.PageBasesServe | dpcrt_allocators.c:53-57 | it does for all page addresses and block sizes that divide the page size |
| Pools.TakeAccounted | dpcrt_allocators.c:129-147 | handing out or taking back one block changes the user total by one block size, which keeps it the live blocks times the block size |
| Pools.ChainAccounted | dpcrt_allocators.c:176-195 | chaining a chunk keeps the allocator total the sizes of all chunks but the first |
| Pools.ClearAccountsIff | dpcrt_allocators.c:233-245 | clearing leaves the totals right exactly if there was one chunk and nothing was live |
| Pools.InitAssertsDoNotSuffice | dpcrt_allocators.c:318-326 | two concrete sizes: the asserts of the initialiser accept them and not a single block fits |
| Pools.SizesServeIff | dpcrt_allocators.c:84-135 | for all rounded sizes: when one block fits, when two do, and when the fields written into a free block end before the next block |
| Pools.RoundedBlockSizeIs | dpcrt_allocators.c:326 | block sizes are rounded up to the next multiple of eight, and those above 65528 to nothing |
| Pools.InitServesIff | dpcrt_allocators.c:318-326 | of all sizes that the asserts accept: the rounded block size is zero exactly above 65528; otherwise some block fits exactly if header and block fit the rounded chunk, and where several do, the fields written into a free block stay clear of the next one exactly if a block of more than 8 bytes was asked for |
| Pools.Pool.constructor | dpcrt_allocators.c:313-342 | a new pool has one chunk where the kernel mapped it, all of its blocks free, and both totals zero |
| Pools.Pool.FindChunk | dpcrt_allocators.c:273-280 | the walk stops at the first chunk with a free block, or at the last chunk |
| Pools.Pool.ChainNewChunk | dpcrt_allocators.c:176-195 | a new chunk with all blocks free is linked behind the last one |
| Pools.Pool.Alloc | dpcrt_allocators.c:265-311 | fails exactly if the size is too big, or all chunks are full and none can be added; otherwise hands out the top of the first stack that is not empty, a block that was not live |
| Pools.Pool.GetChunkFromAddr | dpcrt_allocators.c:44-71 | returns a chunk exactly if the address less 128 is a multiple of the block size and lies strictly inside one |
| Pools.Pool.Free | dpcrt_allocators.c:217-228 | for any address but that of something in a chunk that is no live block: a block is taken back, on top of its stack, exactly if the code finds a chunk for the address; otherwise nothing happens |
| Pools.FoundIff | dpcrt_allocators.c:44-71 | a chunk is found for a block exactly if the chunk of the block lies at a multiple of the block size, and then it is that chunk |
| Pools.Pool.Clear | dpcrt_allocators.c:233-245 | afterwards the chain is cut to its first chunk, all of whose blocks are free, and the totals are what they were |
| Pools.AllocUntilFull | dpcrt_allocators.c:265-311 | after any history, allocating until failure hands out every block of a one-chunk pool that was not live exactly once, in stack order, and then none is left |
| EditScripts.DistanceIsReached | dpcrt_algorithms.h:7-40 | some insert, delete and substitute script turns one string into the other at the cost of the recurrence |
| EditScripts.DistanceIsLeast | dpcrt_algorithms.h:7-40 | no script is cheaper |
| EditScripts.OneEdit | dpcrt_algorithms.h:7-40 | a string with one character more, or with one replaced by another, wherever it stands, is at distance one |
| EditScripts.ComposeWorks | dpcrt_algorithms.h:7-40 | two scripts compose to one that costs no more than both |
| EditScripts.ZeroIffEqual | dpcrt_algorithms.c:23-41 | the distance is zero exactly between equal strings |
| EditScripts.Symmetric | dpcrt_algorithms.c:23-41 | the distance is symmetric |
| EditScripts.Triangle | dpcrt_algorithms.c:23-41 | the distance obeys the triangle inequality |
| Levenshtein.LevenshteinDistance | dpcrt_algorithms.h:7-40 | the two-row loop with the documented row sizes returns the distance of the recurrence, for all strings |
| Levenshtein.NextRow | dpcrt_algorithms.c:23-38 | one turn of the outer loop makes the row of the next prefix out of the row of the previous one |
| Levenshtein.LevenshteinDistanceAsCoded | dpcrt_algorithms.c:14-43 | as coded, with rows one entry short, the function leaves its rows on all inputs, first at the index that is the length of its second argument |
| Adler.Adler32 | dpcrt_hash.h:52-67 | the loop with its reductions returns the checksum of sections 2.2 and 8.2 of RFC 1950: one more than the sum of the bytes modulo 65521 in the lower half, the sum of these sums in the upper half, and no 32-bit sum wraps |
| Adler.StepIsClosedForm | dpcrt_hash.h:62-66 | one turn of the loop goes from the closed form of a prefix to that of the next |
| Adler.JoinHalves | dpcrt_hash.h:68 | shifting and or-ing joins the two halves without overlap |
| Adler.ModulusIsLargestPrime | dpcrt_hash.h:54 | the modulus is the largest prime below 2^16 |
| Adler.KnownChecksum | dpcrt_hash.h:52-68 | the checksum of the nine letters Wikipedia is 0x11E60398 |
| Adler.ConcatCombines | dpcrt_hash.h:52-68 | the checksum of a concatenation is computed from the two checksums and the length of the second part |
| Arena.RoomAsWrittenIff | dpcrt_allocators.c:1251-1263 | the room test as written keeps writes of all sizes it passes inside the buffer exactly while at most one byte is staged; counting from the staged bytes it always does |
| SinglePrecision.RoundIsNear | dpcrt_allocators.c:1241 | rounding a natural number to single precision is exact below 2^24 and off by at most one part in 2^24 above |
| SinglePrecision.GapIs | dpcrt_allocators.c:1241 | the gap is the power of two that leaves a significand of 24 bits |
| SinglePrecision.RoundIsNearest | dpcrt_allocators.c:1241 | rounding gives a multiple of the gap that no other multiple is nearer than, the even one of two |
| SinglePrecision.FiveQuartersIs | dpcrt_allocators.c:1241 | the product with 1.25 in single precision, cut off, is exact while it needs 24 bits, off by no more than the two roundings above, never below the capacity and never out of the word |
| Arena.GrownSizeIs | dpcrt_allocators.c:1223-1244 | a growth step stays within 32 bits; below half of the word range it adds eight pages and a quarter, exactly while the product needs 24 bits and up to the two roundings above; from there on it goes to the top of the word |
| Arena.SuccessAsWrittenIff | dpcrt_allocators.c:1251-1292 | a success reported as written means that the bytes fit behind the staged ones, whatever the kernel answers, exactly if they fit into the old capacity, where the test sees room, and else into that of a single growth step, or nothing can grow; a success of the repaired code always means it |
| Arena.TakesIff | dpcrt_allocators.c:1246-1489 | bytes are taken exactly if they leave a byte of room, or if the kernel grants one growth step that makes room for them |
| Arena.OnesTaken | dpcrt_allocators.c:1569-1584 | bytes added one by one are all taken whenever they leave a byte of room, without growth exactly then, and whenever the kernel grants all it is asked for, up to the top of the word |
| Arena.OneStepIsTooSmall | dpcrt_allocators.c:1251-1292 | a concrete case: a new arena of 128 bytes reports room for a hundred thousand bytes and has grown to a third of that |
| Arena.CharsInsideIff | dpcrt_allocators.c:1246-1584 | for every transaction of single characters as written, whatever the kernel answers: all are written inside the buffer exactly if they fit into the capacity that the first of them finds or brings about, or if that one fails, or if that capacity is the top of the word |
| Arena.RepairedIsInside | dpcrt_allocators.c:1569-1584 | as repaired, a transaction of single characters never writes outside the buffer |
| Arena.MArena.constructor | dpcrt_allocators.c:1295-1324 | a new arena has the capacity of its buffer, at least 128 bytes, and shows the sixteen reserved bytes and nothing else |
| Arena.MArena.Grow | dpcrt_allocators.c:1200-1244 | growing asks the kernel, leads to exactly the capacity of one growth step if it grants that, and keeps what is there; refused growth, or growth at the top of the word, changes nothing |
| Arena.MArena.AccommodateForSize | dpcrt_allocators.c:1251-1292 | as written and repaired: the kernel is asked exactly where the test sees no room, and result and capacity are said for both of its answers; what is there is kept |
| Arena.MArena.EnsureAddIsPossible | dpcrt_allocators.c:1471-1489 | bytes are taken exactly if nothing failed before, the sum stays in the word, and there is room or the kernel grants enough |
| Arena.MArena.Begin | dpcrt_allocators.c:1406-1412 | a transaction starts empty |
| Arena.MArena.AddData | dpcrt_allocators.c:1512-1532 | the bytes are gathered whole, exactly if they are taken, or not at all and the transaction has failed for good; what is committed stays |
| Arena.MArena.AddZeros | dpcrt_allocators.c:1490-1509 | the same for zeroed bytes |
| Arena.MArena.AddChar | dpcrt_allocators.c:1569-1584 | one character is gathered exactly if it is taken, or the transaction has failed for good |
| Arena.MArena.AddCstr | dpcrt_allocators.c:1773-1794 | a string and its terminator are gathered whole, or the transaction has failed; they are gathered whenever there is room, without growth exactly then, and whenever the kernel grants all it is asked for, up to the top of the word |
| Arena.MArena.Commit | dpcrt_allocators.c:1427-1444 | all that was gathered becomes visible behind what was, or, if anything failed, nothing does and the reference is zero |
| Arena.MArena.Dismiss | dpcrt_allocators.c:1415-1424 | what is committed stays as it was |
| Arena.MArena.PushData | dpcrt_allocators.c:1847-1856 | one call is all or nothing, and it is all exactly if the bytes leave a byte of room or the kernel grants one growth step that makes room for them |
| Arena.MArena.PushCstr | dpcrt_allocators.c:1870 | so is pushing a string, which succeeds whenever there is room, without growth exactly then, and whenever the kernel grants all it is asked for |
| Arena.MArena.PopUpTo | dpcrt_allocators.c:1371-1388 | what was committed from the reference on is gone, all before it stays |
| Arena.PushThenPop | dpcrt_allocators.c:1371-1388 | popping to the reference of a push restores what was committed |
| Tokens.WordRoundTrip | dpcrt_lexer.h:139-146 | an unsigned 32-bit field reads back as it was written exactly if 32 bits hold the number |
| Tokens.Int32ReadsBackIff | dpcrt_lexer.h:139-146 | a signed one exactly if 31 bits and a sign hold it |
| Tokens.ReadsBackIff | dpcrt_lexer.h:203-232 | a packed token reads back as it was written, with the next one behind its terminator, exactly if its fields hold it: length, line and column below 2^31 |
| Tokens.LayoutIs | dpcrt_lexer.h:203-207 | byte by byte: type, line, column and length in four bytes each, the lowest first, then the text and a zero |
| Tokens.LongTextWalksBack | dpcrt_lexer.h:256-265 | from every token with a text of 2^31 to 2^32 characters the walk goes back by 2^32 bytes |
| Tokens.TwoGigabytesDoNotReadBack | dpcrt_lexer.h:256-265 | a concrete token with a text of two gigabytes is not read back |
| Tokens.WalkVisits | dpcrt_lexer.h:250-272 | the walk over packed tokens whose fields hold them visits exactly them, in order, with their texts and positions, and lands exactly on the end |
| Tokens.AllTokens | dpcrt_lexer.h:250-272 | the same for the loop over the tokens of an arena |
| Streams.IStream.Refill | dpcrt_streams.c:35-50 | refilling moves bytes from the file into the buffer, however many come, and loses none |
| Streams.IStream.constructor | dpcrt_streams.c:72-80 | a new stream has the whole contents still to be read |
| Streams.IStream.PeekByte | dpcrt_streams.c:98-111 | peeks the next byte exactly if there is one |
| Streams.IStream.AdvanceRead | dpcrt_streams.c:126-134 | drops one byte, and reports failure exactly if it was the last |
| Streams.IStream.ReadNextByte | dpcrt_streams.c:136-144 | delivers the next byte; the last one comes with a false flag |
| Streams.ReadAllAsDocumented | dpcrt_streams.h:41-50 | the documented loop delivers everything but the last byte |
| Staging.WalkIs | dpcrt_lexer_core.h:86-98 | an iterator has period 17 with the macro in use and leaves the array at every seventeenth step; with the modulo version it has period 16 and never does |
| Staging.StagingArea.IsFull | dpcrt_lexer_core.h:70-82 | the test never holds before the ring has fifteen characters, with either macro; with the modulo version it holds exactly then; with the macro in use it finds fifteen only in the first two places, and overlooks sixteen in two |
| Staging.StagingArea.Enqueue | dpcrt_lexer_core.h:102-108 | the ring is a queue: a character is added at the end, as long as the iterators do not meet |
| Staging.StagingArea.Deque | dpcrt_lexer_core.h:110-121 | the first character is removed, and the look-ahead follows |
| Staging.StagingArea.Undo | dpcrt_lexer_core.h:175-179 | the look-ahead starts again, and what is staged stays |
| Characters.TextIs | dpcrt_lexer_builtin_logic.c:68-191 | the valid characters are the bytes 9 to 13 and 32 to 126; whitespace is 9 to 13 and 32; punctuation is what is printed without being a letter, a digit, an underscore, a backquote or a space; ETX alone is neither valid nor invalid |
| Characters.AdvanceConcat | dpcrt_lexer_core.h:240-246 | positions advance over a text as over its parts |
| Characters.PositionMeans | dpcrt_lexer_core.h:240-246 | from the start of the input, the line is one more than the line breaks passed and the column counts the characters since the last one |
| Characters.SameLine | dpcrt_lexer_core.h:240-246 | where nothing breaks the line, the column counts on |
| Characters.NextLine | dpcrt_lexer_core.h:240-246 | behind a line break, the line is the next one and the column counts from the break |
| Characters.SpanIs | dpcrt_lexer_builtin_logic.c:204-604 | what a run consumes is the longest front of characters of its class |
| Characters.BlanksAre | dpcrt_lexer_builtin_logic.c:68-113 | in bytes: a run of blanks is the longest front of 9 to 13 and 32 |
| Characters.SpanUnique | dpcrt_lexer_builtin_logic.c:204-604 | a text of one class is consumed exactly if a character of another class, or nothing, follows |
| Gates.RunIs | dpcrt_lexer_builtin_logic.c:204-604 | for every input, invalid bytes included: a run goes over characters of its class as far as there are any before an end of the input, emits exactly what stands in front of the first invalid byte that was not read before, and reports exactly those that it reads for the first time |
| Gates.BadIs | dpcrt_lexer_core.h:182-195 | in bytes: invalid is what is neither zero, nor ETX, nor valid |
| Gates.BlanksAreAll | dpcrt_lexer_builtin_logic.c:97-219 | for every input: whitespace is consumed and emitted as far as it goes |
| Gates.CleanRun | dpcrt_lexer_builtin_logic.c:204-604 | in valid characters a run is the longest front of its class, emitted whole |
| Punctuators.MunchIsSpelled | dpcrt_lexer_builtin_logic.c:656-910 | what the case distinction takes is the front of the input, spelled as the token table says for the type it returns |
| Punctuators.MunchIsLongest | dpcrt_lexer_builtin_logic.c:656-910 | no longer punctuator of the token table is at the front: longest match, as in section 6.4 paragraph 4 of ISO/IEC 9899:2011 |
| Punctuators.NullIff | dpcrt_lexer_builtin_logic.c:656-910 | the type is left null exactly for the two punctuator characters without a case, hash and dollar |
| Punctuators.BackquoteIsUnreachable | dpcrt_lexer_builtin_logic.c:177-191 | the case for the backquote is never reached, because its character is not a punctuator character |
| Punctuators.MunchAlone | dpcrt_lexer_builtin_logic.c:656-910 | in front of a space or the end, every punctuator of the table is taken as itself |
| Punctuators.SpellingInjective | dpcrt_lexer.h:50-133 | no two token types have the same spelling |
| TokenTable.CodesInOrder | dpcrt_lexer.h:50-133 | the first thirty types in the order of their declaration have the numbers from 0 to 29 |
| TokenTable.OtherCodesInOrder | dpcrt_lexer.h:50-133 | the other ones have the numbers from 30 to 61 |
| Punctuators.SpelledInOrder | dpcrt_lexer.h:50-133 | the first thirty types in the order of their numbers are spelled as the comments of the enumeration say, or not at all |
| Punctuators.OthersSpelledInOrder | dpcrt_lexer.h:50-133 | so are the other ones; a left shift is two brackets |
| Scanning.StringRoundTrip | dpcrt_lexer_builtin_logic.c:256-312 | for every string, either delimiter and whatever follows: escaping and then reading gives the string back and stops just behind the closing delimiter exactly if no character of the string ends the input or is invalid |
| Scanning.EscapesAreKnown | dpcrt_lexer_builtin_logic.c:256-312 | what was escaped holds no unknown escape |
| Scanning.EscapeIs | dpcrt_lexer_builtin_logic.c:276-298 | of all valid characters behind a backslash, exactly the delimiter, the backslash, the line break, the form feed and the tab are read as what they are; any other is lost, with the closing delimiter left in the input |
| Scanning.PlainIs | dpcrt_lexer_builtin_logic.c:299-310 | a character that is no backslash stands for itself, closes the literal if it is the delimiter, and breaks it if it is a line break |
| Scanning.KnownEscapesFit | dpcrt_lexer_builtin_logic.c:256-312 | without unknown escapes two characters of look-ahead suffice, for every input |
| Scanning.FitsIff | dpcrt_lexer_core.h:102-108 | in valid characters, from any turn of the loop on: the ring can hold what the loop looks ahead exactly if its reach is no more than the room, which is one place, or two at a backslash, and one more for every unknown escape before it |
| Scanning.EscapesOverrunIff | dpcrt_lexer_builtin_logic.c:256-312 | a literal of n unknown escapes that is not ended overruns a ring exactly if the ring does not hold n + 1 characters, so that sixteen overrun it with either macro |
| Scanning.ReadAsMeantIff | dpcrt_lexer_builtin_logic.c:256-312 | in valid characters, where a delimiter or a line break ends the literal: the ring can hold what the loop looks ahead and text, input and stop are as meant, exactly if no unknown escape is met; where the ring can hold it, the input falls behind by exactly as many characters as there are |
| Scanning.StopsAsMeantIff | dpcrt_lexer_builtin_logic.c:256-312 | in valid characters: the ring can hold what the loop looks ahead and the loop stops for the reason it is meant to, having consumed what it is meant to, exactly if it meets no unknown escape, or if the literal is not ended at all and reaches no further than the ring |
| Scanning.UnknownEscapeLosesText | dpcrt_lexer_builtin_logic.c:282-284 | a concrete input with one unknown escape: a character is lost and the closing quote stays in the input |
| Scanning.CommentRoundTrip | dpcrt_lexer_builtin_logic.c:134-174 | every comment body of production [15] in section 2.5 of XML 1.0 that is made of valid characters is emitted exactly, with the input going on just behind the closing delimiter |
| Scanning.CommentReadIff | dpcrt_lexer_builtin_logic.c:134-174 | for every body and whatever follows: the body is emitted exactly, with the input going on just behind the closing delimiter, exactly if it is made of what the production allows and of pairs of hyphens in front of a character other than the bracket, no round starts with a character that ends the input, and none reads an invalid one |
| Scanning.IsCommentBodyIff | dpcrt_lexer_builtin_logic.c:134-174 | the bodies of the production are those without two hyphens in a row and without one at the end |
| Scanning.PairReadIff | dpcrt_lexer_builtin_logic.c:144-167 | a pair of hyphens takes any valid character along but the bracket |
| Scanning.ThreeHyphensDoNotClose | dpcrt_lexer_builtin_logic.c:144-167 | a concrete body that is not: three hyphens and a bracket close nothing |
| Scanning.CleanString | dpcrt_lexer_builtin_logic.c:256-312 | what the loop makes of any input, invalid bytes included, is in valid characters what the scan of literals says |
| Tokenising.FirstConsumes | dpcrt_lexer_builtin_logic.c:204-910 | a token consumes at least one character exactly unless a hash or a dollar stands in front, and its text is the front of the input |
| Tokenising.CleanCut | dpcrt_lexer_builtin_logic.c:80-910 | what the driver cuts off any input is, in valid characters, the first token |
| Tokenising.TokensCover | dpcrt_lexer.c:53-137 | with whitespace tokens, the texts join to the input up to the first hash or dollar that starts a token, every text is non-empty and every position is that of its first character |
| Tokenising.LosslessIff | dpcrt_lexer.c:53-137 | the texts join to the whole input exactly if it has no hash and no dollar |
| Tokenising.EatingDropsBlanks | dpcrt_lexer.c:65-76 | eating whitespace gives the same tokens at the same positions but those of whitespace |
| Tokenising.CutAgain | dpcrt_lexer_builtin_logic.c:583-910 | a token text followed by a space or nothing is cut off again with the same type |
| Tokenising.JoinedCutsAgain | dpcrt_lexer_builtin_logic.c:583-910 | joining token texts by single spaces and lexing gives the same types and texts |
| Tokenising.RelexingIsStable | dpcrt_lexer_builtin_logic.c:583-910 | for every input of valid characters, lexing, joining by single spaces and lexing again gives the same types and texts |
| Lookahead.HoldsDeque | dpcrt_lexer_core.h:222-249 | consuming the first staged character keeps staged and unread characters together the rest of the input |
| Lookahead.MovedOn | dpcrt_lexer_core.h:268-294 | two stretches of input turned into text make one, with the transaction of the arena and its room |
| Lexer.LexerState.constructor | dpcrt_lexer.c:141-159 | a new lexer stands at line one, column zero, with the whole stream ahead |
| Lexer.LexerState.IsEnd | dpcrt_lexer_core.h:146-173 | ends at the end of the input, at a zero or 255 byte, and at a byte 3 that is not staged |
| Lexer.LexerState.Next | dpcrt_lexer_core.h:199-220 | the character as many places ahead as were looked at, zeros behind the end; a byte that is read for the first time is reported exactly if it is neither 0 nor 3, nor 9 to 13, nor 32 to 126; nothing is consumed |
| Lexer.LexerState.Deque | dpcrt_lexer_core.h:222-249 | consumes one character and moves the position over it; without look-ahead the last byte of the input comes out as zero |
| Lexer.LexerState.RejectCnt | dpcrt_lexer_core.h:251-266 | consumes characters and emits nothing |
| Lexer.LexerState.Emit | dpcrt_lexer_core.h:268-277 | adds the character to the token unless missing memory or an invalid byte was reported; the transaction fails exactly if the arena does not take it |
| Lexer.LexerState.Accept | dpcrt_lexer_core.h:279-285 | consumes one character and emits it |
| Lexer.LexerState.AcceptIn | dpcrt_lexer_core.h:287-294 | consumes and emits characters that were looked at |
| Lexer.LexerState.EatWhitespaces | dpcrt_lexer_builtin_logic.c:97-113 | for every input: consumes exactly the longest front of the bytes 9 to 13 and 32, moves the position over it and reports the invalid byte that it stops at |
| Lexer.LexerState.LexWhitespaces | dpcrt_lexer_builtin_logic.c:204-219 | for every input: consumes and, unless an error forbids it, emits exactly the longest front of the bytes 9 to 13 and 32 |
| Lexer.LexerState.LexIdentifierOrKeyword | dpcrt_lexer_builtin_logic.c:583-604 | for every input: consumes and emits what a run of characters that are neither whitespace nor punctuation does, up to an end of the input or the first invalid byte |
| Lexer.LexerState.LexRun | dpcrt_lexer_builtin_logic.c:204-604 | the loop that both share does to input, position, token and errors what a run of its class says |
| Lexer.LexerState.IsWhitespace | dpcrt_lexer_builtin_logic.c:80-91 | tells whether whitespace is ahead, consuming nothing |
| Lexer.LexerState.IsC11Punctuator | dpcrt_lexer_builtin_logic.c:643-654 | tells whether a punctuator character is ahead, consuming nothing |
| Lexer.LexerState.LexC11Punctuator | dpcrt_lexer_builtin_logic.c:656-910 | for every input: consumes the longest punctuator at the front, returns its type and emits it unless an invalid byte was read |
| Lexer.LexerState.IsXmlStringLiteral | dpcrt_lexer_builtin_logic.c:245-254 | tells whether a delimiter is ahead, consuming nothing |
| Lexer.LexerState.LexXmlStringLiteral | dpcrt_lexer_builtin_logic.c:256-312 | for every input whose look-ahead the ring can hold: does to input, position and token what the scan says, invalid bytes included; a line break is reported as an invalid string, and a missing delimiter as a premature end |
| Lexer.LexerState.EnsureStartsWith | dpcrt_lexer_builtin_logic.c:117-131 | tells whether the given text is ahead, consuming nothing |
| Lexer.LexerState.IsXmlComment | dpcrt_lexer_builtin_logic.c:222-243 | tells whether the opening of a comment is ahead, consuming nothing |
| Lexer.LexerState.LexXmlComment | dpcrt_lexer_builtin_logic.c:134-174 | for every input behind an opening: drops it and does to input, position, token and errors what the scan says, invalid bytes included |
| Lexer.LexerState.LexLogic | dpcrt_lexer_builtin_logic.c:80-910 | a driver of these recognisers: for every input, the type and text of what is cut off, and how much of the input it takes |
| Lexer.LexerState.CloseToken | dpcrt_lexer.c:99-131 | the token is committed with its type, position, length, text and terminator exactly if nothing failed and the arena takes the terminator; else nothing is committed, missing memory is reported and the position is restored |
| Lexer.LexerState.MakeToken | dpcrt_lexer.c:77-134 | for every input: one new token behind the committed ones, with the type, position and text of what the driver cuts off, exactly if the arena takes its header, its text character by character and its terminator; otherwise nothing and a report of missing memory, or, exactly if already the header is not taken, nothing and no report |
| Lexer.LexerState.Prepare | dpcrt_lexer.c:53-76 | errors are cleared, blanks skipped if asked for, and the end is recognised |
| Lexer.LexerState.NextToken | dpcrt_lexer.c:53-137 | for every input: one call skips blanks if asked to, and then stops at the end or at an invalid byte, or commits exactly one token behind all earlier ones, or reports missing memory; it returns false exactly at the end or, reporting nothing, if the arena does not take the header of a token |
| Lexer.HeaderTakenIff | dpcrt_lexer.c:85-90 | the arena takes the header of a token exactly if more than sixteen bytes are left or the kernel grants a growth step that makes room for them |
| Lexer.TokenTaken | dpcrt_lexer.c:77-131 | a token is taken whenever header, text and terminator leave a byte of room, without growth exactly then, and whenever the kernel grants all it is asked for, up to the top of the word |
| Turns.CleanTurn | dpcrt_lexer.c:53-137 | in valid characters, what one call makes is the first token behind the blanks that are skipped, or nothing at the end |
| Turns.CleanCuts | dpcrt_lexer.c:53-137 | in valid characters without them, calls make the tokens of the input one by one until there are no more |
| Turns.NeverEnds | dpcrt_lexer.c:53-137 | with a hash or a dollar somewhere, every number of calls makes as many tokens |
| Turns.EndsIffLexable | dpcrt_lexer.h:230-232 | in valid characters, calls come to an end, with all the memory there is, exactly if there is no hash and no dollar |
| Lexer.LexerState.TokeniseOne | dpcrt_lexer.h:230-232 | for every input: one turn of the documented loop commits the token that the next call makes exactly if the arena takes it, and tells the end |
| Lexer.LexerState.Tokenise | dpcrt_lexer.h:230-232 | for every input: the documented loop terminates, the committed bytes are always packed tokens, and they are those of as many calls; it gets through to the end, unless an invalid byte stops it, whenever there is room for all of them, or could be if the kernel grants all it is asked for |
| Lexer.RoomyIff | dpcrt_lexer.h:230-232 | for valid characters without hash and dollar that is room for the tokens of the input |
| Pipeline.TokensFit | dpcrt_lexer.h:139-146 | whatever calls cut off inputs below two gigabytes fits into the signed fields |
| Pipeline.LexFile | dpcrt_lexer.c:53-137 | for every file below two gigabytes, with either ring and any refill sizes: the tokens read back from the arena are those that as many calls cut off the file, and all of them if the loop gets through, which for valid characters it does whenever there is or could be room for them |
| Pipeline.LexedIs | dpcrt_lexer.c:53-137 | for a file of valid characters without hash and dollar these are its tokens, and with whitespace tokens their texts join to the file |
| Pipeline.ReadBackString | dpcrt_lexer_builtin_logic.c:256-312 | the code reads a printed string literal back into the token, reports nothing and leaves the input just behind it; while there is or could be room the transaction does not fail |
| Pipeline.ReadEscape | dpcrt_lexer_builtin_logic.c:256-312 | the code reads a single escape in a closed literal as the character exactly if that is the delimiter, a backslash, a line break, a form feed or a tab, and otherwise leaves the closing delimiter in the input |
| Pipeline.ReadBackComment | dpcrt_lexer_builtin_logic.c:134-174 | the same for every comment body that can be read back at all |

## Left out

- `mflist_clear`, `mflist_del` and `mflist_realloc1`: clearing leaves dangling chain heads and uses an inverted test
  for emptiness, and the moving branch of reallocating frees before it copies, so that neither has a sound reading
  close to the code; the branch of reallocating that keeps the block returns the same address, without looking at
  other blocks.
- The multi-byte `marena_add_*` functions, which scale a byte offset by the element size; only bytes, characters, raw
  data and strings are modelled.
- `marena_clear` and `marena_del`, which end the life of what is in the arena, `marena_fetch`, which copies committed
  bytes out, and `marena_ask_alignment`, which depends on the address of the buffer, which is no part of this model.
- `lex_c11_numeric_constant` and the XML escape sequences: the first is marked unfinished by its author; the second
  tells five fixed names apart and emits one character for each, with no loop and no state of its own.
- The recognisers that the source declares and leaves without a body.
- `mpool_del` and `mpool_init`: they only unmap or pass constants on.
- The branch of `marena_accomodate_for_size` that forces a reallocation at every push, which exists in debug builds
  only.
- The `SWAP` macro: its first statement is a cast, not a declaration; the model swaps two references.
- Asserts that abort a debug build: where they hold they are proved, where they do not the model goes on as a release
  build does.
- Error messages: `errfmt` is modelled by the error it records, not by what it prints.
- 32-bit wrap-around of the byte totals, and of lines, columns and the count of emitted characters inside the lexer:
  they are unbounded integers; the token fields in the arena are 32 bits wide.
- Other ABIs: header sizes are fixed to those of the 64-bit targets.
- Hash functions other than Adler-32, floating-point mathematics, endian helpers, packed bits, stretchy buffers,
  lists, threads, processes, file notification and the platform layer.
- MFList.Allocator.PickOrMap: the code assigns the link to a freshly chained chunk twice and, after mapping a first
  chunk, walks to it once more; the model does each once.
- Pools.Pool.constructor: asks for a block size of at least 16 and room for one block, which the code asserts only in
  part; `Pools.InitServesIff` says what becomes of all other sizes that it accepts.
- Pools.Pool.Free: leaves out addresses inside a chunk that pass the alignment test and are no live block: freeing
  those is a client's error that the code has no means to notice.
- Lexer.LexerState.LexXmlStringLiteral: asks that the ring can hold what the loop looks ahead, as the assert at
  dpcrt_lexer_core.h:105 is there to check; `Scanning.FitsIff` says exactly when it can. What an overrun ring does is
  not modelled.
- AsWritten.StepKeeps: on chunk bases where rounding the first block changes nothing, and for requests for which no
  sum wraps; on other bases the code as written makes a first block that runs past the chunk
  (`ChunkCode.InitFitsIffGoodBase`), and for larger requests a chunk that is too small (`Sizing.FreshChunkServesIff`).
- AsWritten.LandedInStep: on chunk bases where rounding the first block changes nothing, and for requests for which no
  sum wraps; on other bases the code as written makes a first block that runs past the chunk
  (`ChunkCode.InitFitsIffGoodBase`), and for larger requests a chunk that is too small (`Sizing.FreshChunkServesIff`).
- AsWritten.TargetIs: on chunk bases where rounding the first block changes nothing, and for requests for which no sum
  wraps; on other bases the code as written makes a first block that runs past the chunk
  (`ChunkCode.InitFitsIffGoodBase`), and for larger requests a chunk that is too small (`Sizing.FreshChunkServesIff`).
- AsWritten.RunKeeps: on chunk bases where rounding the first block changes nothing, and for requests for which no sum
  wraps; on other bases the code as written makes a first block that runs past the chunk
  (`ChunkCode.InitFitsIffGoodBase`), and for larger requests a chunk that is too small (`Sizing.FreshChunkServesIff`).
- AsWritten.EveryCheckPasses: on chunk bases where rounding the first block changes nothing, and for requests for
  which no sum wraps; on other bases the code as written makes a first block that runs past the chunk
  (`ChunkCode.InitFitsIffGoodBase`), and for larger requests a chunk that is too small (`Sizing.FreshChunkServesIff`).
- AsWritten.NothingIsReused: on chunk bases where rounding the first block changes nothing, and for requests for which
  no sum wraps; on other bases the code as written makes a first block that runs past the chunk
  (`ChunkCode.InitFitsIffGoodBase`), and for larger requests a chunk that is too small (`Sizing.FreshChunkServesIff`).
- Lexer.LexerState.LexLogic: the driver is client code in the source; this one is made of the whitespace, punctuator
  and identifier recognisers.

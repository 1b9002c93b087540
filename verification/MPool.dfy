/** The MPool allocator: fixed size blocks on a free list that is initialised lazily. */
module MPool {
  import opened Options

  /** `MPOOL_RESERVED_CHUNK_HEADER_SIZE`. */
  const HEADER: nat := 128
  /** `sizeof(MPoolBlock)`: what the allocator itself writes into a free block. */
  const BLOCK_FIELDS: nat := 16

  /** The fields of a free block.  In a live block they are whatever its user left there. */
  datatype Cell = Cell(allFree: bool, next: Option<nat>)

  // ---------------------------------------------------------------- blocks of a chunk

  /** Offsets of all blocks from `off` to the end of the chunk. */
  function BlocksFrom(off: nat, bs: nat, size: nat): (r: seq<nat>)
    requires bs > 0
    ensures forall i :: 0 <= i < |r| ==> r[i] >= off && r[i] + bs <= size
    ensures forall i, j :: 0 <= i < j < |r| ==> r[i] + bs <= r[j]
    decreases if off <= size then size - off else 0
  {
    if off + bs > size then [] else [off] + BlocksFrom(off + bs, bs, size)
  }

  function AllBlocks(bs: nat, size: nat): seq<nat>
    requires bs > 0
  {
    BlocksFrom(HEADER, bs, size)
  }

  /** The list holds every place a block can be, in order. */
  lemma {:induction false} BlocksFromIs(off: nat, bs: nat, size: nat, k: nat)
    requires bs > 0
    ensures k < |BlocksFrom(off, bs, size)| <==> off + (k + 1) * bs <= size
    ensures k < |BlocksFrom(off, bs, size)| ==> BlocksFrom(off, bs, size)[k] == off + k * bs
    decreases k
  {
    Product(k, bs);
    if off + bs <= size && k > 0 {
      BlocksFromIs(off + bs, bs, size, k - 1);
      Product(k - 1, bs);
    }
  }

  lemma Product(k: nat, bs: nat)
    ensures (k + 1) * bs == k * bs + bs && k * bs >= 0
    ensures k > 0 ==> k * bs >= bs
  {
  }

  // ---------------------------------------------------------------- the lazy list

  /** The list from `head` stands for the stack `free`: explicit links, then possibly one flagged block
      that stands for itself and all blocks after it. */
  ghost predicate Stands(cells: map<nat, Cell>, head: Option<nat>, free: seq<nat>, bs: nat, size: nat)
    requires bs > 0
    decreases |free|
  {
    if free == [] then head == None
    else
      && head == Some(free[0]) && free[0] in cells
      && if cells[free[0]].allFree then free == BlocksFrom(free[0], bs, size)
         else Stands(cells, cells[free[0]].next, free[1..], bs, size)
  }

  ghost predicate NoDuplicates(s: seq<nat>) {
    forall i, j :: 0 <= i < j < |s| ==> s[i] != s[j]
  }

  /** Cells that are not on the stack do not matter. */
  lemma {:induction false} StandsFrame(cells: map<nat, Cell>, cells': map<nat, Cell>, head: Option<nat>,
      free: seq<nat>, bs: nat, size: nat)
    requires bs > 0 && Stands(cells, head, free, bs, size)
    requires forall o :: o in free && o in cells ==> o in cells' && cells'[o] == cells[o]
    ensures Stands(cells', head, free, bs, size)
    decreases |free|
  {
    if free != [] && !cells[free[0]].allFree {
      StandsFrame(cells, cells', cells[free[0]].next, free[1..], bs, size);
    }
  }

  /** After a flagged block comes its neighbour, standing for the rest, or nothing. */
  lemma RestOfFlagged(off: nat, bs: nat, size: nat)
    requires bs > 0 && off + bs <= size
    ensures BlocksFrom(off, bs, size)[1..] == BlocksFrom(off + bs, bs, size)
    ensures BlocksFrom(off + bs, bs, size) == [] <==> off + bs + bs > size
    ensures off + bs + bs <= size ==> BlocksFrom(off + bs, bs, size)[0] == off + bs
  {
  }

  lemma HeadIs(cells: map<nat, Cell>, head: Option<nat>, free: seq<nat>, bs: nat, size: nat)
    requires bs > 0 && Stands(cells, head, free, bs, size)
    ensures head == if free == [] then None else Some(free[0])
  {
  }

  /** `mpool__get_next_adjacent_block`. */
  function NextAdjacent(off: nat, bs: nat, size: nat): Option<nat> {
    if off + bs + bs > size then None else Some(off + bs)
  }

  lemma FlaggedStands(cells: map<nat, Cell>, off: nat, bs: nat, size: nat)
    requires bs > 0 && off + bs <= size && off in cells && cells[off].allFree
    ensures Stands(cells, Some(off), BlocksFrom(off, bs, size), bs, size)
  {
  }

  /** Taking a linked head block leaves a list of the rest. */
  lemma PopLinked(cells: map<nat, Cell>, free: seq<nat>, bs: nat, size: nat)
    requires bs > 0 && free != [] && NoDuplicates(free) && Stands(cells, Some(free[0]), free, bs, size)
    requires !cells[free[0]].allFree
    ensures Stands(cells[free[0] := Cell(false, None)], cells[free[0]].next, free[1..], bs, size)
  {
    var off, rest := free[0], free[1..];
    assert off !in rest;
    StandsFrame(cells, cells[off := Cell(false, None)], cells[off].next, rest, bs, size);
  }

  /** Taking a flagged head block and passing its flag on leaves a list of the rest. */
  lemma PopFlagged(cells: map<nat, Cell>, free: seq<nat>, bs: nat, size: nat)
    requires bs > 0 && free != [] && Stands(cells, Some(free[0]), free, bs, size)
    requires cells[free[0]].allFree && forall o :: o in free ==> o in cells
    ensures
      match NextAdjacent(free[0], bs, size)
      case None => Stands(cells[free[0] := Cell(false, None)], None, free[1..], bs, size)
      case Some(n) =>
        && n in cells
        && Stands(cells[n := cells[n].(allFree := true)][free[0] := Cell(false, None)], Some(n), free[1..], bs, size)
  {
    var off, rest := free[0], free[1..];
    RestOfFlagged(off, bs, size);
    if off + bs + bs <= size {
      var n := off + bs;
      assert rest[0] == n && rest[0] in free;
      FlaggedStands(cells[n := cells[n].(allFree := true)][off := Cell(false, None)], n, bs, size);
    }
  }

  /** A chunk and its list. */
  class PoolChunk {
    const base: nat
    var nextChunk: PoolChunk?
    var nextBlock: Option<nat>
    var cells: map<nat, Cell>
    ghost var free: seq<nat>

    /** Free blocks are blocks, each listed once; all other blocks are live. */
    ghost predicate Valid(bs: nat, size: nat)
      reads this`nextBlock, this`cells, this`free
    {
      && bs >= BLOCK_FIELDS && HEADER + bs <= size
      && (forall o :: o in AllBlocks(bs, size) ==> o in cells)
      && (forall o :: o in free ==> o in AllBlocks(bs, size))
      && NoDuplicates(free)
      && Stands(cells, nextBlock, free, bs, size)
    }

    ghost predicate Live(off: nat, bs: nat, size: nat)
      requires bs > 0
      reads this`free
    {
      off in AllBlocks(bs, size) && off !in free
    }

    lemma FitInChunk(bs: nat, size: nat)
      requires Valid(bs, size)
      ensures forall o :: o in free ==> o in cells && o + bs <= size
    {
    }

    lemma AllInCells(bs: nat, size: nat)
      requires Valid(bs, size)
      ensures HEADER + bs <= size && forall o :: o in AllBlocks(bs, size) ==> o in cells
    {
    }

    /** `mpool__init_chunk`: one flag, over whatever the blocks hold. */
    method Init(bs: nat, size: nat)
      requires bs >= BLOCK_FIELDS && HEADER + bs <= size
      requires forall o :: o in AllBlocks(bs, size) ==> o in cells
      modifies this
      ensures Valid(bs, size) && nextChunk == null && free == AllBlocks(bs, size)
    {
      nextChunk := null;
      nextBlock := Some(HEADER);
      assert AllBlocks(bs, size)[0] == HEADER;
      cells := cells[HEADER := cells[HEADER].(allFree := true)];
      free := AllBlocks(bs, size);
    }

    /** A freshly mapped chunk; the kernel's pages hold anything. */
    constructor (base: nat, bs: nat, size: nat, stale: map<nat, Cell>)
      requires bs >= BLOCK_FIELDS && HEADER + bs <= size
      requires forall o :: o in AllBlocks(bs, size) ==> o in stale
      ensures Valid(bs, size) && nextChunk == null && free == AllBlocks(bs, size) && this.base == base
    {
      this.base := base;
      cells := stale;
      nextChunk, nextBlock, free := null, None, [];
      new;
      Init(bs, size);
    }

    /** `mpool__mark_block_as_used` on the head of the list. */
    method MarkUsed(bs: nat, size: nat) returns (off: nat)
      requires Valid(bs, size) && free != []
      modifies this`nextBlock, this`cells, this`free
      ensures Valid(bs, size) && off == old(free)[0] && free == old(free)[1..]
      ensures Live(off, bs, size) && off in cells && cells[off] == Cell(false, None)
      ensures forall o :: old(Live(o, bs, size)) ==> o in old(cells) && o in cells && cells[o] == old(cells)[o]
    {
      FitInChunk(bs, size);
      HeadIs(cells, nextBlock, free, bs, size);
      off := nextBlock.value;
      var next: Option<nat> := None;
      if cells[off].allFree {
        PopFlagged(cells, free, bs, size);
        next := NextAdjacent(off, bs, size);
        if next.Some? {
          cells := cells[next.value := cells[next.value].(allFree := true)];
        }
      } else {
        PopLinked(cells, free, bs, size);
        next := cells[off].next;
      }
      nextBlock := next;
      cells := cells[off := Cell(false, None)];
      free := free[1..];
    }

    /** `mpool__mark_block_as_avail`: the block goes on top, whatever its user left in it. */
    method MarkAvail(off: nat, bs: nat, size: nat)
      requires Valid(bs, size) && Live(off, bs, size)
      modifies this`nextBlock, this`cells, this`free
      ensures Valid(bs, size) && free == [off] + old(free)
      ensures forall o :: Live(o, bs, size) ==> o in old(cells) && o in cells && cells[o] == old(cells)[o]
    {
      ghost var before := cells;
      cells := cells[off := Cell(false, nextBlock)];
      StandsFrame(before, cells, nextBlock, free, bs, size);
      nextBlock := Some(off);
      free := [off] + free;
      assert free[1..] == old(free);
    }

    /** Users write what they like into their blocks. */
    method UserWrites(off: nat, junk: Cell, bs: nat, size: nat)
      requires Valid(bs, size) && Live(off, bs, size)
      modifies this`cells
      ensures Valid(bs, size) && free == old(free) && cells == old(cells)[off := junk]
    {
      ghost var before := cells;
      cells := cells[off := junk];
      StandsFrame(before, cells, nextBlock, free, bs, size);
    }
  }
}

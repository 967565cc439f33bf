/** Fixed-capacity memory blocks obtained from the buffer pool, and the pool
    itself reduced to what the allocator observes of it: a supply of fresh
    block handles. */
module TupleDataBlocks {
  import ByteOrder

  /** idx_t is an unsigned 64-bit integer; its subtraction wraps modulo 2^64. */
  const IDX_MODULUS: nat := 0x1_0000_0000_0000_0000

  type Idx = x: int | 0 <= x < IDX_MODULUS

  /** The buffer manager, as far as allocation goes: `nextHandle` is the
      first handle it has not yet handed out. */
  datatype Pool = Pool(nextHandle: nat)

  /** A TupleDataBlock: the pool handle of its buffer, the buffer's capacity in
      bytes, and how many of those bytes are filled. */
  datatype Block = Block(handle: nat, capacity: Idx, size: nat)

  /** The block constructor: allocates a buffer of `capacity` bytes from the
      pool; nothing of it is filled yet. */
  function NewBlock(pool: Pool, capacity: Idx): (r: (Block, Pool))
    ensures r.0.capacity == capacity && r.0.size == 0
    ensures RemainingCapacity(r.0) == capacity
    ensures pool.nextHandle <= r.0.handle < r.1.nextHandle
  {
    (Block(pool.nextHandle, capacity, 0), pool.(nextHandle := pool.nextHandle + 1))
  }

  /** capacity - size in idx_t arithmetic: exact while the block is not
      overfilled, and wrapped to a huge value once it is. */
  function RemainingCapacity(b: Block): (r: Idx)
    ensures b.size <= b.capacity ==> r == b.capacity - b.size
    ensures b.capacity < b.size < b.capacity + IDX_MODULUS ==> r == IDX_MODULUS - (b.size - b.capacity)
  {
    (b.capacity - b.size) % IDX_MODULUS
  }

  /** How many whole rows of `rowWidth` bytes still fit in the block. */
  function RemainingRows(b: Block, rowWidth: nat): (r: nat)
    requires rowWidth > 0
    ensures r * rowWidth <= RemainingCapacity(b) < r * rowWidth + rowWidth
  {
    ByteOrder.DivMod(RemainingCapacity(b), rowWidth);
    RemainingCapacity(b) / rowWidth
  }

  function Last(blocks: seq<Block>): (b: Block)
    requires |blocks| > 0
  {
    blocks[|blocks| - 1]
  }

  /** The list with `grow` more bytes of its last block marked as filled. */
  function GrowLast(blocks: seq<Block>, grow: nat): (r: seq<Block>)
    requires |blocks| > 0
    ensures |r| == |blocks| && r[..|r| - 1] == blocks[..|blocks| - 1]
    ensures Last(r) == Last(blocks).(size := Last(blocks).size + grow)
    ensures forall i :: 0 <= i < |r| ==> r[i].handle == blocks[i].handle && r[i].capacity == blocks[i].capacity
  {
    blocks[..|blocks| - 1] + [Last(blocks).(size := Last(blocks).size + grow)]
  }

  /** `after` keeps every block of `before` in place with the same buffer and
      capacity and no less filled; it may have more blocks at the end. */
  predicate Extends(before: seq<Block>, after: seq<Block>)
  {
    |before| <= |after|
    && forall i :: 0 <= i < |before| ==>
         after[i].handle == before[i].handle && after[i].capacity == before[i].capacity
         && before[i].size <= after[i].size
  }

  /** `after` is `before` with at most one new block appended and only the last
      block changed: it now holds `start + grow` bytes, where `start` was its fill
      before (zero for a new block). */
  predicate LastGrownBy(before: seq<Block>, after: seq<Block>, start: nat, grow: nat)
  {
    |before| <= |after| <= |before| + 1 && |after| > 0
    && after[..|after| - 1] == before[..|after| - 1]
    && Last(after).size == start + grow
    && (|after| == |before| ==> Last(after) == Last(before).(size := start + grow) && start == Last(before).size)
    && (|after| > |before| ==> start == 0)
  }

  lemma LastGrownExtends(before: seq<Block>, after: seq<Block>, start: nat, grow: nat)
    requires LastGrownBy(before, after, start, grow)
    ensures Extends(before, after)
  {
    forall i | 0 <= i < |before|
      ensures after[i].handle == before[i].handle && after[i].capacity == before[i].capacity
      ensures before[i].size <= after[i].size
    {
      if i < |after| - 1 {
        assert after[i] == after[..|after| - 1][i];
      }
    }
  }

  /** The bytes filled over a whole list of blocks. */
  function Fill(blocks: seq<Block>): (n: nat)
    ensures |blocks| > 0 ==> Last(blocks).size <= n
  {
    if |blocks| == 0 then 0 else Fill(blocks[..|blocks| - 1]) + Last(blocks).size
  }

  /** Growing only the last block by `grow` bytes, possibly a new one, adds
      exactly `grow` bytes to the list's fill. */
  lemma LastGrownFill(before: seq<Block>, after: seq<Block>, start: nat, grow: nat)
    requires LastGrownBy(before, after, start, grow)
    ensures Fill(after) == Fill(before) + grow
  {
    if |after| > |before| {
      assert before[..|after| - 1] == before;
    }
  }

  /** The pool hands out handles in increasing order, so a list built by
      appending fresh blocks has strictly increasing handles. */
  predicate Ascending(blocks: seq<Block>)
  {
    forall i, j :: 0 <= i < j < |blocks| ==> blocks[i].handle < blocks[j].handle
  }

  /** No buffer belongs to both lists. */
  predicate ApartFrom(xs: seq<Block>, ys: seq<Block>)
  {
    forall i, j :: 0 <= i < |xs| && 0 <= j < |ys| ==> xs[i].handle != ys[j].handle
  }

  lemma ExtendsTransitive(a: seq<Block>, b: seq<Block>, c: seq<Block>)
    requires Extends(a, b) && Extends(b, c)
    ensures Extends(a, c)
  {
  }
}

/** The chunk-packing step of the row/heap allocator: rows are placed in
    fixed-size row blocks, and their variable-size payloads in heap blocks,
    each chunk taking as many consecutive rows as both blocks have room for. */
module TupleDataAllocator {
  import opened Results
  import opened TupleDataBlocks
  import ByteOrder

  /** What the allocator uses of a TupleDataLayout: the fixed width of a row,
      where in a row the pointer to its heap payload is stored, and whether
      every column is fixed-size (no heap payload at all). */
  datatype Layout = Layout(rowWidth: nat, heapOffset: nat, allConstant: bool)

  /** The allocator: the block size the buffer pool hands out, the layout, the
      two append-only block lists and the pool the blocks come from. */
  datatype Allocator = Allocator(blockSize: Idx, layout: Layout, rowBlocks: seq<Block>,
                                 heapBlocks: seq<Block>, pool: Pool)

  /** A TupleDataChunk: where a run of `count` consecutive rows was placed. */
  datatype Chunk = Chunk(rowBlockIndex: nat, rowBlockOffset: nat, heapBlockIndex: nat,
                         heapBlockOffset: nat, lastHeapRowSize: nat, count: nat)

  datatype AllocError =
    | ZeroCountChunk        // the assertion that a chunk holds at least one row
    | SizeReadPastCount     // a heap row size read at an index the caller did not fill
    | BlockIndexOutOfRange  // a block list indexed past its end
    | InvalidHandle         // a pointer taken from a cache slot that was never filled

  datatype Step = Step(alloc: Allocator, chunk: Chunk)

  function Min(x: int, y: int): (m: int) { if x <= y then x else y }

  function Max(x: int, y: int): (m: int) { if x >= y then x else y }

  /** Sum of heap row sizes, peeling off the last element. */
  function Sum(s: seq<Idx>): (n: nat)
  {
    if |s| == 0 then 0 else Sum(s[..|s| - 1]) + s[|s| - 1]
  }

  /** Extending a run of payloads by the next one adds its size. */
  lemma SumSnoc(s: seq<Idx>, from: nat, to: nat)
    requires from <= to < |s|
    ensures Sum(s[from..to + 1]) == Sum(s[from..to]) + s[to]
  {
    assert s[from..to + 1][..to - from] == s[from..to];
  }

  /** A longer run of payloads from the same row weighs at least as much. */
  lemma {:induction false} SumMono(s: seq<Idx>, from: nat, i: nat, j: nat)
    requires from <= i <= j <= |s|
    ensures Sum(s[from..i]) <= Sum(s[from..j])
    decreases j - i
  {
    if i < j {
      SumSnoc(s, from, i);
      SumMono(s, from, i + 1, j);
    }
  }

  /** The payloads of the rows before `j` are those before `i` and those from
      `i` on. */
  lemma {:induction false} SumSplit(s: seq<Idx>, i: nat, j: nat)
    requires i <= j <= |s|
    ensures Sum(s[..j]) == Sum(s[..i]) + Sum(s[i..j])
    decreases j - i
  {
    if i == j {
      assert s[i..j] == [];
    } else {
      SumSnoc(s, 0, j - 1);
      SumSnoc(s, i, j - 1);
      assert s[0..j] == s[..j] && s[0..j - 1] == s[..j - 1];
      SumSplit(s, i, j - 1);
    }
  }

  predicate BlocksValid(blocks: seq<Block>, pool: Pool)
  {
    forall i :: 0 <= i < |blocks| ==> blocks[i].size <= blocks[i].capacity && blocks[i].handle < pool.nextHandle
  }

  /** The allocator's invariant: rows have a width, every block's filled part
      fits its capacity, every block's buffer came from the pool, every block
      has a buffer of its own (handles increase along each list and none is in
      both), row blocks all have the standard size, and a layout without heap
      payloads has no heap blocks. */
  predicate Valid(a: Allocator)
  {
    a.layout.rowWidth > 0
    && BlocksValid(a.rowBlocks, a.pool) && BlocksValid(a.heapBlocks, a.pool)
    && Ascending(a.rowBlocks) && Ascending(a.heapBlocks) && ApartFrom(a.rowBlocks, a.heapBlocks)
    && (forall i :: 0 <= i < |a.rowBlocks| ==> a.rowBlocks[i].capacity == a.blockSize)
    && (a.layout.allConstant ==> a.heapBlocks == [])
  }

  /** The allocator as constructed: no blocks yet. */
  function NewAllocator(blockSize: Idx, layout: Layout, pool: Pool): (a: Allocator)
    requires layout.rowWidth > 0
    ensures Valid(a) && a.rowBlocks == [] && a.heapBlocks == []
    ensures a.layout == layout && a.blockSize == blockSize && a.pool == pool
  {
    Allocator(blockSize, layout, [], [], pool)
  }

  /** A block with a buffer not handed out before can join either list
      without breaking the invariant. */
  lemma FreshBlockKeepsValid(a: Allocator, b: Block, pool: Pool)
    requires b.size == 0 && a.pool.nextHandle <= b.handle < pool.nextHandle
    ensures Valid(a) && b.capacity == a.blockSize ==> Valid(a.(rowBlocks := a.rowBlocks + [b], pool := pool))
    ensures Valid(a) && !a.layout.allConstant ==> Valid(a.(heapBlocks := a.heapBlocks + [b], pool := pool))
  {
    if Valid(a) {
      var rows, heaps := a.rowBlocks + [b], a.heapBlocks + [b];
      assert forall i :: 0 <= i < |a.rowBlocks| ==> rows[i] == a.rowBlocks[i] && rows[i].handle < b.handle;
      assert forall i :: 0 <= i < |a.heapBlocks| ==> heaps[i] == a.heapBlocks[i] && heaps[i].handle < b.handle;
    }
  }

  /** Opens a new row block of the standard size when there is none yet or
      the last one has no room left for a single row. */
  function EnsureRowBlock(a: Allocator): (r: Allocator)
    ensures r.blockSize == a.blockSize && r.layout == a.layout && r.heapBlocks == a.heapBlocks
    ensures a.pool.nextHandle <= r.pool.nextHandle
    ensures |a.rowBlocks| <= |r.rowBlocks| <= |a.rowBlocks| + 1 && r.rowBlocks[..|a.rowBlocks|] == a.rowBlocks
    ensures |r.rowBlocks| > |a.rowBlocks|
            <==> |a.rowBlocks| == 0 || RemainingCapacity(Last(a.rowBlocks)) < a.layout.rowWidth
    ensures |r.rowBlocks| > |a.rowBlocks| ==>
              Last(r.rowBlocks).capacity == a.blockSize && Last(r.rowBlocks).size == 0
              && Last(r.rowBlocks).handle >= a.pool.nextHandle
    ensures |r.rowBlocks| > 0 && Opened(a.rowBlocks, r.rowBlocks)
    ensures a.layout.rowWidth <= a.blockSize ==> RemainingCapacity(Last(r.rowBlocks)) >= a.layout.rowWidth
    ensures Valid(a) ==> Valid(r)
  {
    if |a.rowBlocks| == 0 || RemainingCapacity(Last(a.rowBlocks)) < a.layout.rowWidth then
      var (b, pool) := NewBlock(a.pool, a.blockSize);
      FreshBlockKeepsValid(a, b, pool);
      a.(rowBlocks := a.rowBlocks + [b], pool := pool)
    else
      a
  }

  /** Opens a new heap block when there is none yet or the last one cannot
      take the next row's payload; the new block is made large enough for that
      payload even when it exceeds the standard size. */
  function EnsureHeapBlock(a: Allocator, first: Idx): (r: Allocator)
    requires !a.layout.allConstant
    ensures r.blockSize == a.blockSize && r.layout == a.layout && r.rowBlocks == a.rowBlocks
    ensures a.pool.nextHandle <= r.pool.nextHandle
    ensures |a.heapBlocks| <= |r.heapBlocks| <= |a.heapBlocks| + 1 && r.heapBlocks[..|a.heapBlocks|] == a.heapBlocks
    ensures |r.heapBlocks| > |a.heapBlocks|
            <==> |a.heapBlocks| == 0 || RemainingCapacity(Last(a.heapBlocks)) < first
    ensures |r.heapBlocks| > |a.heapBlocks| ==>
              Last(r.heapBlocks).capacity == Max(a.blockSize, first) && Last(r.heapBlocks).size == 0
              && Last(r.heapBlocks).handle >= a.pool.nextHandle
    ensures |r.heapBlocks| > 0 && Opened(a.heapBlocks, r.heapBlocks)
    ensures RemainingCapacity(Last(r.heapBlocks)) >= first
    ensures Valid(a) ==> Valid(r)
  {
    if |a.heapBlocks| == 0 || RemainingCapacity(Last(a.heapBlocks)) < first then
      var (b, pool) := NewBlock(a.pool, Max(a.blockSize, first));
      FreshBlockKeepsValid(a, b, pool);
      a.(heapBlocks := a.heapBlocks + [b], pool := pool)
    else
      a
  }

  /** The heap scan from index i on, with `total` the payload of the rows
      before i: stops before the first row whose payload would overflow
      `room`. */
  function HeapFitFrom(sizes: seq<Idx>, i: nat, total: nat, room: nat): (k: nat)
    requires i <= |sizes| && total == Sum(sizes[..i]) && total <= room
    ensures i <= k <= |sizes|
    ensures Sum(sizes[..k]) <= room
    ensures k < |sizes| ==> Sum(sizes[..k + 1]) > room
    decreases |sizes| - i
  {
    if i == |sizes| then i
    else
      SumSnoc(sizes, 0, i);
      if total + sizes[i] > room then i
      else HeapFitFrom(sizes, i + 1, total + sizes[i], room)
  }

  /** The longest prefix of `sizes` whose payloads fit in `room` bytes. */
  function HeapFit(sizes: seq<Idx>, room: nat): (k: nat)
    ensures k <= |sizes| && Sum(sizes[..k]) <= room
    ensures k < |sizes| ==> Sum(sizes[..k + 1]) > room
  {
    assert sizes[..0] == [];
    HeapFitFrom(sizes, 0, 0, room)
  }

  /** Taking a row from a block with room for at least one keeps its fill
      within capacity. */
  lemma RowsFit(b: Block, rowWidth: nat, next: nat)
    requires rowWidth > 0 && next <= RemainingRows(b, rowWidth)
    ensures b.size <= b.capacity ==> b.size + next * rowWidth <= b.capacity
  {
    ByteOrder.MulMono(next, RemainingRows(b, rowWidth), rowWidth);
  }

  /** Under the invariant, the row block chosen by EnsureRowBlock has room
      for a row exactly when a row fits in a block of the standard size. */
  lemma RowRoom(a: Allocator)
    requires a.layout.rowWidth > 0
    ensures Valid(a) ==>
              (RemainingRows(Last(EnsureRowBlock(a).rowBlocks), a.layout.rowWidth) > 0
               <==> a.layout.rowWidth <= a.blockSize)
  {
    if Valid(a) {
      var w, r := a.layout.rowWidth, EnsureRowBlock(a);
      var b := Last(r.rowBlocks);
      assert b == r.rowBlocks[|r.rowBlocks| - 1];
      assert b.size <= b.capacity == a.blockSize;
      var k := RemainingRows(b, w);
      if k > 0 {
        ByteOrder.MulMono(1, k, w);
      }
    }
  }

  /** A non-empty scan whose first payload fits takes at least one row. */
  lemma HeapFitPositive(sizes: seq<Idx>, room: nat)
    ensures |sizes| > 0 && sizes[0] <= room ==> HeapFit(sizes, room) > 0
  {
    if |sizes| > 0 {
      assert sizes[..1] == [sizes[0]];
      assert Sum(sizes[..1]) == Sum([]) + sizes[0];
    }
  }

  /** Filling the last block up to at most its capacity keeps the list valid. */
  lemma GrowLastValid(blocks: seq<Block>, pool: Pool, grow: nat)
    requires |blocks| > 0
    ensures BlocksValid(blocks, pool) && Last(blocks).size + grow <= Last(blocks).capacity
            ==> BlocksValid(GrowLast(blocks, grow), pool)
  {
    if BlocksValid(blocks, pool) && Last(blocks).size + grow <= Last(blocks).capacity {
      var r := GrowLast(blocks, grow);
      forall i | 0 <= i < |r|
        ensures r[i].size <= r[i].capacity && r[i].handle < pool.nextHandle
      {
        if i < |r| - 1 {
          assert r[i] == r[..|r| - 1][i] == blocks[..|blocks| - 1][i];
        }
      }
    }
  }

  /** `mid` is `before` with at most one new, empty block appended. */
  predicate Opened(before: seq<Block>, mid: seq<Block>)
  {
    |before| <= |mid| <= |before| + 1 && |mid| > 0 && mid[..|before|] == before
    && (|mid| > |before| ==> Last(mid).size == 0)
  }

  /** Opening a block when needed and then filling the last one changes only
      the last block, starting from its fill after the opening step. */
  lemma GrowAfterEnsure(before: seq<Block>, mid: seq<Block>, grow: nat)
    requires Opened(before, mid)
    ensures LastGrownBy(before, GrowLast(mid, grow), Last(mid).size, grow)
  {
    var after := GrowLast(mid, grow);
    assert after[..|after| - 1] == mid[..|mid| - 1];
    if |mid| == |before| {
      assert mid == before;
    } else {
      assert before == mid[..|mid| - 1];
    }
  }

  lemma SlicePrefix(sizes: seq<Idx>, offset: nat, n: nat, k: nat)
    requires offset + n <= |sizes| && k <= n
    ensures sizes[offset..offset + n][..k] == sizes[offset..offset + k]
  {
  }

  /** The row side of a chunk-building step: only the last row block changed,
      by exactly the chunk's rows, and the chunk points at where they start. */
  predicate RowsAdvanced(a: Allocator, a': Allocator, c: Chunk)
  {
    && a'.blockSize == a.blockSize && a'.layout == a.layout
    && a.pool.nextHandle <= a'.pool.nextHandle
    && LastGrownBy(a.rowBlocks, a'.rowBlocks, c.rowBlockOffset, c.count * a.layout.rowWidth)
    && c.rowBlockIndex == |a'.rowBlocks| - 1
  }

  /** The heap side of a chunk-building step: untouched for a layout without
      payloads; otherwise only the last heap block changed, by exactly the
      payload of the chunk's rows, and the chunk points at where it starts. */
  predicate HeapAdvanced(a: Allocator, a': Allocator, c: Chunk, sizes: seq<Idx>, offset: nat)
  {
    if a.layout.allConstant then
      a'.heapBlocks == a.heapBlocks && c.heapBlockIndex == 0 && c.heapBlockOffset == 0
      && c.lastHeapRowSize == 0
    else
      && offset + c.count <= |sizes| && c.count > 0
      && LastGrownBy(a.heapBlocks, a'.heapBlocks, c.heapBlockOffset, Sum(sizes[offset..offset + c.count]))
      && c.heapBlockIndex == |a'.heapBlocks| - 1
      && c.lastHeapRowSize == sizes[offset + c.count - 1]
  }

  /** A block filled up to its capacity or less has no room for one row more
      than RemainingRows counts. */
  lemma NoRoomForAnother(b: Block, w: nat)
    requires w > 0
    ensures b.size <= b.capacity ==> b.size + (RemainingRows(b, w) + 1) * w > b.capacity
  {
  }

  /** Why a chunk stopped short of the rows still to place: one more row
      would overflow the row block or, with payloads, one more row's payload
      would overflow the heap block. */
  predicate Exhausted(a': Allocator, c: Chunk, sizes: seq<Idx>, offset: nat)
    requires |a'.rowBlocks| > 0 && (!a'.layout.allConstant ==> |a'.heapBlocks| > 0)
  {
    c.rowBlockOffset + (c.count + 1) * a'.layout.rowWidth > Last(a'.rowBlocks).capacity
    || (!a'.layout.allConstant && offset + c.count < |sizes|
        && c.heapBlockOffset + Sum(sizes[offset..offset + c.count + 1]) > Last(a'.heapBlocks).capacity)
  }

  /** Marks `next` rows as filled in the last row block, which has room
      for them; the heap is left alone. */
  function FillRows(a: Allocator, next: nat): (s: Step)
    requires a.layout.rowWidth > 0 && |a.rowBlocks| > 0
    requires 0 < next <= RemainingRows(Last(a.rowBlocks), a.layout.rowWidth)
    ensures Valid(a) ==> Valid(s.alloc)
    ensures s.alloc == a.(rowBlocks := GrowLast(a.rowBlocks, next * a.layout.rowWidth))
    ensures s.chunk == Chunk(|a.rowBlocks| - 1, Last(a.rowBlocks).size, 0, 0, 0, next)
  {
    var w := a.layout.rowWidth;
    RowsFit(Last(a.rowBlocks), w, next);
    GrowLastValid(a.rowBlocks, a.pool, next * w);
    Step(a.(rowBlocks := GrowLast(a.rowBlocks, next * w)), Chunk(|a.rowBlocks| - 1, Last(a.rowBlocks).size, 0, 0, 0, next))
  }

  /** Everything but the block lists as before, and each list with at most
      one new, empty block: the state after the block-opening steps. */
  predicate Prepared(a: Allocator, mid: Allocator)
  {
    && mid.blockSize == a.blockSize && mid.layout == a.layout
    && a.pool.nextHandle <= mid.pool.nextHandle
    && Opened(a.rowBlocks, mid.rowBlocks)
  }

  /** Opening a row block when needed and filling it advances the row list by
      exactly the chunk and leaves the (empty) heap alone. */
  lemma ConstantAdvanced(a: Allocator, a1: Allocator, next: nat)
    requires a.layout.rowWidth > 0 && a.layout.allConstant
    requires Prepared(a, a1) && a1.heapBlocks == a.heapBlocks
    requires 0 < next <= RemainingRows(Last(a1.rowBlocks), a.layout.rowWidth)
    ensures var s := FillRows(a1, next);
            RowsAdvanced(a, s.alloc, s.chunk) && HeapAdvanced(a, s.alloc, s.chunk, [], 0)
  {
    GrowAfterEnsure(a.rowBlocks, a1.rowBlocks, next * a.layout.rowWidth);
  }

  /** A constant-layout chunk stops short of the rows still to place only
      when its row block is full. */
  lemma ConstantExhausted(a1: Allocator, offset: nat, count: nat, next: nat)
    requires a1.layout.rowWidth > 0 && a1.layout.allConstant && |a1.rowBlocks| > 0 && offset < count
    requires next == Min(RemainingRows(Last(a1.rowBlocks), a1.layout.rowWidth), count - offset) && next > 0
    ensures Valid(a1) && next < count - offset ==>
              Exhausted(FillRows(a1, next).alloc, FillRows(a1, next).chunk, [], offset)
  {
    var s := FillRows(a1, next);
    NoRoomForAnother(Last(a1.rowBlocks), a1.layout.rowWidth);
    assert Last(s.alloc.rowBlocks).capacity == Last(a1.rowBlocks).capacity;
  }

  /** The step for a layout without heap payloads. */
  function ConstantChunk(a: Allocator, offset: nat, count: nat): (r: Result<Step, AllocError>)
    requires a.layout.rowWidth > 0 && a.layout.allConstant
    requires offset < count
    ensures r.Failure? ==> r.error == ZeroCountChunk
    ensures Valid(a) ==> (r.Success? <==> a.layout.rowWidth <= a.blockSize)
    ensures r.Success? ==> 0 < r.value.chunk.count <= count - offset
    ensures r.Success? ==> Valid(a) ==> Valid(r.value.alloc)
    ensures r.Success? ==> RowsAdvanced(a, r.value.alloc, r.value.chunk)
    ensures r.Success? ==> HeapAdvanced(a, r.value.alloc, r.value.chunk, [], offset)
    ensures r.Success? && Valid(a) && r.value.chunk.count < count - offset ==>
              Exhausted(r.value.alloc, r.value.chunk, [], offset)
  {
    var a1 := EnsureRowBlock(a);
    var rowNext := Min(RemainingRows(Last(a1.rowBlocks), a.layout.rowWidth), count - offset);
    RowRoom(a);
    if rowNext == 0 then Failure(ZeroCountChunk)
    else
      ConstantAdvanced(a, a1, rowNext);
      ConstantExhausted(a1, offset, count, rowNext);
      Success(FillRows(a1, rowNext))
  }

  /** Marks `next` rows and their payloads as filled in the last row block
      and the last heap block, both of which have room for them. */
  function FillBlocks(a: Allocator, sizes: seq<Idx>, offset: nat, next: nat): (s: Step)
    requires a.layout.rowWidth > 0 && |a.rowBlocks| > 0 && |a.heapBlocks| > 0
    requires 0 < next && offset + next <= |sizes|
    requires next <= RemainingRows(Last(a.rowBlocks), a.layout.rowWidth)
    requires Sum(sizes[offset..offset + next]) <= RemainingCapacity(Last(a.heapBlocks))
    ensures Valid(a) ==> Valid(s.alloc)
    ensures s.alloc == a.(rowBlocks := GrowLast(a.rowBlocks, next * a.layout.rowWidth),
                          heapBlocks := GrowLast(a.heapBlocks, Sum(sizes[offset..offset + next])))
    ensures s.chunk == Chunk(|a.rowBlocks| - 1, Last(a.rowBlocks).size, |a.heapBlocks| - 1,
                             Last(a.heapBlocks).size, sizes[offset + next - 1], next)
  {
    var w := a.layout.rowWidth;
    var total := Sum(sizes[offset..offset + next]);
    RowsFit(Last(a.rowBlocks), w, next);
    GrowLastValid(a.heapBlocks, a.pool, total);
    GrowLastValid(a.rowBlocks, a.pool, next * w);
    var a' := a.(rowBlocks := GrowLast(a.rowBlocks, next * w), heapBlocks := GrowLast(a.heapBlocks, total));
    Step(a', Chunk(|a.rowBlocks| - 1, Last(a.rowBlocks).size, |a.heapBlocks| - 1,
                   Last(a.heapBlocks).size, sizes[offset + next - 1], next))
  }

  /** The variable-layout step stops short only for lack of room: the scan
      ended at the row block's room, or before a payload that overflows. */
  lemma VariableExhausted(a2: Allocator, sizes: seq<Idx>, offset: nat, count: nat, rowNext: nat, next: nat)
    requires a2.layout.rowWidth > 0 && !a2.layout.allConstant && |a2.rowBlocks| > 0 && |a2.heapBlocks| > 0
    requires offset < count <= |sizes|
    requires rowNext == Min(RemainingRows(Last(a2.rowBlocks), a2.layout.rowWidth), count - offset)
    requires next == HeapFit(sizes[offset..offset + rowNext], RemainingCapacity(Last(a2.heapBlocks))) && next > 0
    requires Sum(sizes[offset..offset + next]) <= RemainingCapacity(Last(a2.heapBlocks))
    ensures Valid(a2) && next < count - offset ==>
              Exhausted(FillBlocks(a2, sizes, offset, next).alloc, FillBlocks(a2, sizes, offset, next).chunk, sizes, offset)
  {
    if Valid(a2) && next < count - offset {
      var w := a2.layout.rowWidth;
      var s := FillBlocks(a2, sizes, offset, next);
      var rb, hb := Last(a2.rowBlocks), Last(a2.heapBlocks);
      assert Last(s.alloc.rowBlocks).capacity == rb.capacity;
      assert Last(s.alloc.heapBlocks).capacity == hb.capacity;
      if next < rowNext {
        SlicePrefix(sizes, offset, rowNext, next + 1);
        assert hb.size + Sum(sizes[offset..offset + next + 1]) > hb.capacity;
      } else {
        NoRoomForAnother(rb, w);
      }
    }
  }

  /** Opening blocks as needed and then filling both last blocks advances
      each list by exactly the chunk. */
  lemma VariableAdvanced(a: Allocator, a2: Allocator, sizes: seq<Idx>, offset: nat, next: nat)
    requires a.layout.rowWidth > 0 && !a.layout.allConstant
    requires Prepared(a, a2) && Opened(a.heapBlocks, a2.heapBlocks)
    requires 0 < next && offset + next <= |sizes|
    requires next <= RemainingRows(Last(a2.rowBlocks), a2.layout.rowWidth)
    requires Sum(sizes[offset..offset + next]) <= RemainingCapacity(Last(a2.heapBlocks))
    ensures var s := FillBlocks(a2, sizes, offset, next);
            RowsAdvanced(a, s.alloc, s.chunk) && HeapAdvanced(a, s.alloc, s.chunk, sizes, offset)
  {
    GrowAfterEnsure(a.heapBlocks, a2.heapBlocks, Sum(sizes[offset..offset + next]));
    GrowAfterEnsure(a.rowBlocks, a2.rowBlocks, next * a.layout.rowWidth);
  }

  /** The step for a layout with heap payloads. */
  function VariableChunk(a: Allocator, sizes: seq<Idx>, offset: nat, count: nat): (r: Result<Step, AllocError>)
    requires a.layout.rowWidth > 0 && !a.layout.allConstant
    requires offset < count <= |sizes|
    ensures r.Failure? ==> r.error == ZeroCountChunk
    ensures Valid(a) ==> (r.Success? <==> a.layout.rowWidth <= a.blockSize)
    ensures r.Success? ==> 0 < r.value.chunk.count <= count - offset
    ensures r.Success? ==> Valid(a) ==> Valid(r.value.alloc)
    ensures r.Success? ==> RowsAdvanced(a, r.value.alloc, r.value.chunk)
    ensures r.Success? ==> HeapAdvanced(a, r.value.alloc, r.value.chunk, sizes, offset)
    ensures r.Success? && Valid(a) && r.value.chunk.count < count - offset ==>
              Exhausted(r.value.alloc, r.value.chunk, sizes, offset)
  {
    var w := a.layout.rowWidth;
    var a1 := EnsureRowBlock(a);
    var rowNext := Min(RemainingRows(Last(a1.rowBlocks), w), count - offset);
    RowRoom(a);
    var a2 := EnsureHeapBlock(a1, sizes[offset]);
    var room := RemainingCapacity(Last(a2.heapBlocks));
    var next := HeapFit(sizes[offset..offset + rowNext], room);
    HeapFitPositive(sizes[offset..offset + rowNext], room);
    if next == 0 then Failure(ZeroCountChunk)
    else
      SlicePrefix(sizes, offset, rowNext, next);
      VariableExhausted(a2, sizes, offset, count, rowNext, next);
      VariableAdvanced(a, a2, sizes, offset, next);
      Success(FillBlocks(a2, sizes, offset, next))
  }

  /** One chunk-building step (BuildChunk) for rows `offset` .. `count` - 1,
      with `sizes` the caller's heap payload size of every row: the chunk is
      never empty, never runs past `count`, fills only the last block of each
      list and keeps every block within its capacity. */
  function BuildChunk(a: Allocator, sizes: seq<Idx>, offset: nat, count: nat): (r: Result<Step, AllocError>)
    requires a.layout.rowWidth > 0
    requires offset < count
    requires !a.layout.allConstant ==> count <= |sizes|
    ensures r.Failure? ==> r.error == ZeroCountChunk
    ensures Valid(a) ==> (r.Success? <==> a.layout.rowWidth <= a.blockSize)
    ensures r.Success? ==> 0 < r.value.chunk.count <= count - offset
    ensures r.Success? ==> Valid(a) ==> Valid(r.value.alloc)
    ensures r.Success? ==> RowsAdvanced(a, r.value.alloc, r.value.chunk)
    ensures r.Success? ==> HeapAdvanced(a, r.value.alloc, r.value.chunk, sizes, offset)
    ensures r.Success? && Valid(a) && r.value.chunk.count < count - offset ==>
              Exhausted(r.value.alloc, r.value.chunk, sizes, offset)
  {
    if a.layout.allConstant then ConstantChunk(a, offset, count)
    else VariableChunk(a, sizes, offset, count)
  }
}

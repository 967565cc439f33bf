/** Two runs of Build worked out chunk by chunk through the plan: which
    chunks it lays down, where, and when it opens a block. */
module TupleDataPlanExamples {
  import opened Results
  import opened TupleDataBlocks
  import opened TupleDataAllocator
  import opened TupleDataBuild
  import opened TupleDataAsWritten

  /** 16-byte rows and no payloads. */
  const Fixed := Layout(16, 0, true)

  /** Ten 16-byte rows, 64-byte blocks: four rows fill a block, so Build
      lays down chunks of 4, 4 and 2 rows, each in a block of its own, and
      opens the third block only for the last two rows. */
  lemma TenFixedRows()
    ensures Plan(NewAllocator(64, Fixed, Fresh), [], 0, 10)
            == Success(Placement([Chunk(0, 0, 0, 0, 0, 4), Chunk(1, 0, 0, 0, 0, 4), Chunk(2, 0, 0, 0, 0, 2)],
                                 Allocator(64, Fixed, [Block(0, 64, 64), Block(1, 64, 64), Block(2, 64, 32)], [], Pool(3))))
  {
    hide BuildChunk, Plan;
    var a0 := NewAllocator(64, Fixed, Fresh);
    FixedStep(a0, [], 0, Block(0, 64, 64), 4);
    assert [] + [Block(0, 64, 64)] == [Block(0, 64, 64)];
    PlanStep(a0, [], 0, 10);
    EightFixedRows();
    assert [Chunk(0, 0, 0, 0, 0, 4)] + [Chunk(1, 0, 0, 0, 0, 4), Chunk(2, 0, 0, 0, 0, 2)]
           == [Chunk(0, 0, 0, 0, 0, 4), Chunk(1, 0, 0, 0, 0, 4), Chunk(2, 0, 0, 0, 0, 2)];
  }

  /** The last six of TenFixedRows' rows, once the first block is full. */
  lemma EightFixedRows()
    ensures Plan(Allocator(64, Fixed, [Block(0, 64, 64)], [], Pool(1)), [], 4, 10)
            == Success(Placement([Chunk(1, 0, 0, 0, 0, 4), Chunk(2, 0, 0, 0, 0, 2)],
                                 Allocator(64, Fixed, [Block(0, 64, 64), Block(1, 64, 64), Block(2, 64, 32)], [], Pool(3))))
  {
    hide BuildChunk, Plan;
    var a1 := Allocator(64, Fixed, [Block(0, 64, 64)], [], Pool(1));
    FixedStep(a1, [Block(0, 64, 64)], 4, Block(1, 64, 64), 4);
    assert [Block(0, 64, 64)] + [Block(1, 64, 64)] == [Block(0, 64, 64), Block(1, 64, 64)];
    PlanStep(a1, [], 4, 10);
    LastTwoFixedRows();
    assert [Chunk(1, 0, 0, 0, 0, 4)] + [Chunk(2, 0, 0, 0, 0, 2)] == [Chunk(1, 0, 0, 0, 0, 4), Chunk(2, 0, 0, 0, 0, 2)];
  }

  /** The last two of TenFixedRows' rows, once two blocks are full. */
  lemma LastTwoFixedRows()
    ensures Plan(Allocator(64, Fixed, [Block(0, 64, 64), Block(1, 64, 64)], [], Pool(2)), [], 8, 10)
            == Success(Placement([Chunk(2, 0, 0, 0, 0, 2)],
                                 Allocator(64, Fixed, [Block(0, 64, 64), Block(1, 64, 64), Block(2, 64, 32)], [], Pool(3))))
  {
    hide BuildChunk, Plan;
    var a2 := Allocator(64, Fixed, [Block(0, 64, 64), Block(1, 64, 64)], [], Pool(2));
    var a3 := Allocator(64, Fixed, [Block(0, 64, 64), Block(1, 64, 64), Block(2, 64, 32)], [], Pool(3));
    FixedStep(a2, [Block(0, 64, 64), Block(1, 64, 64)], 8, Block(2, 64, 32), 2);
    assert [Block(0, 64, 64), Block(1, 64, 64)] + [Block(2, 64, 32)] == a3.rowBlocks;
    PlanStep(a2, [], 8, 10);
    assert Plan(a3, [], 10, 10) == Success(Placement([], a3));
    assert [Chunk(2, 0, 0, 0, 0, 2)] + [] == [Chunk(2, 0, 0, 0, 0, 2)];
  }

  /** One step of TenFixedRows: the last block is full (or there is none),
      so the step opens block `|full|` and fills `n` of its 4 rows. */
  lemma FixedStep(a: Allocator, full: seq<Block>, offset: nat, filled: Block, n: nat)
    requires a == Allocator(64, Fixed, full, [], Pool(|full|))
    requires |full| > 0 ==> Last(full) == Block(|full| - 1, 64, 64)
    requires offset == 4 * |full| < 10 && n == Min(4, 10 - offset)
    requires filled == Block(|full|, 64, 16 * n)
    ensures BuildChunk(a, [], offset, 10)
            == Success(Step(Allocator(64, Fixed, full + [filled], [], Pool(|full| + 1)), Chunk(|full|, 0, 0, 0, 0, n)))
  {
    FixedOpens(a, full, offset, n);
    hide ConstantChunk, VariableChunk, EnsureRowBlock, FillRows, GrowLast, Valid, RowsAdvanced, HeapAdvanced, Exhausted;
    GrowLastOf(full, Block(|full|, 64, 0), n * 16);
    assert Last(full + [Block(|full|, 64, 0)]) == Block(|full|, 64, 0);
  }

  lemma FixedOpens(a: Allocator, full: seq<Block>, offset: nat, n: nat)
    requires a == Allocator(64, Fixed, full, [], Pool(|full|))
    requires |full| > 0 ==> Last(full) == Block(|full| - 1, 64, 64)
    requires offset == 4 * |full| < 10 && n == Min(4, 10 - offset)
    ensures ConstantChunk(a, offset, 10)
            == Success(FillRows(a.(rowBlocks := full + [Block(|full|, 64, 0)], pool := Pool(|full| + 1)), n))
  {
    FixedRowBlock(a, full);
    var a1 := a.(rowBlocks := full + [Block(|full|, 64, 0)], pool := Pool(|full| + 1));
    assert Last(a1.rowBlocks) == Block(|full|, 64, 0);
    assert RemainingRows(Block(|full|, 64, 0), 16) == 4;
    ConstantChunkOf(a, a1, offset, 10, n);
  }

  lemma ConstantChunkOf(a: Allocator, a1: Allocator, offset: nat, count: nat, n: nat)
    requires a.layout.rowWidth > 0 && a.layout.allConstant && offset < count
    requires EnsureRowBlock(a) == a1 && n == Min(RemainingRows(Last(a1.rowBlocks), a.layout.rowWidth), count - offset)
    requires n > 0
    ensures ConstantChunk(a, offset, count) == Success(FillRows(a1, n))
  {
    hide EnsureRowBlock, FillRows, RemainingRows, Valid, RowsAdvanced, HeapAdvanced, Exhausted;
  }

  lemma FixedRowBlock(a: Allocator, full: seq<Block>)
    requires a == Allocator(64, Fixed, full, [], Pool(|full|))
    requires |full| > 0 ==> Last(full) == Block(|full| - 1, 64, 64)
    ensures EnsureRowBlock(a) == a.(rowBlocks := full + [Block(|full|, 64, 0)], pool := Pool(|full| + 1))
  {
  }

  /** Three rows of 10 payload bytes, one-byte rows, 25-byte blocks: the
      first chunk takes two rows, whose payloads leave 5 bytes of the heap
      block; the third payload opens a second heap block, while the row
      block, with room to spare, stays the same. */
  lemma ThreePayloads()
    ensures Plan(NewAllocator(25, Variable, Fresh), [10, 10, 10], 0, 3)
            == Success(Placement([Chunk(0, 0, 0, 0, 10, 2), Chunk(0, 2, 1, 0, 10, 1)],
                                 Allocator(25, Variable, [Block(0, 25, 3)], [Block(1, 25, 20), Block(2, 25, 10)], Pool(3))))
  {
    hide BuildChunk, Plan;
    var sizes: seq<Idx> := [10, 10, 10];
    var a0 := NewAllocator(25, Variable, Fresh);
    var a1 := Allocator(25, Variable, [Block(0, 25, 2)], [Block(1, 25, 20)], Pool(2));
    var a2 := Allocator(25, Variable, [Block(0, 25, 3)], [Block(1, 25, 20), Block(2, 25, 10)], Pool(3));
    FirstOfThree(a0, sizes);
    SecondOfThree(a1, sizes);
    PlanStep(a0, sizes, 0, 3);
    PlanStep(a1, sizes, 2, 3);
    assert [Chunk(0, 0, 0, 0, 10, 2)] + ([Chunk(0, 2, 1, 0, 10, 1)] + [])
           == [Chunk(0, 0, 0, 0, 10, 2), Chunk(0, 2, 1, 0, 10, 1)];
  }

  lemma FirstOpens(a: Allocator, sizes: seq<Idx>, a2: Allocator)
    requires a == NewAllocator(25, Variable, Fresh) && sizes == [10, 10, 10]
    requires a2 == Allocator(25, Variable, [Block(0, 25, 0)], [Block(1, 25, 0)], Pool(2))
    ensures 20 <= RemainingCapacity(Last(a2.heapBlocks)) && 2 <= RemainingRows(Last(a2.rowBlocks), 1)
    ensures Sum(sizes[0..2]) == 20
    ensures VariableChunk(a, sizes, 0, 3) == Success(FillBlocks(a2, sizes, 0, 2))
  {
    var a1 := EnsureRowBlock(a);
    assert a1 == Allocator(25, Variable, [Block(0, 25, 0)], [], Pool(1));
    assert RemainingRows(Last(a1.rowBlocks), 1) == 25;
    var a2 := EnsureHeapBlock(a1, 10);
    assert a2 == Allocator(25, Variable, [Block(0, 25, 0)], [Block(1, 25, 0)], Pool(2));
    assert RemainingCapacity(Last(a2.heapBlocks)) == 25;
    FitOfTens(sizes[0..3]);
    SumOfTens(sizes, 2);
    assert sizes[..2] == sizes[0..2];
    assert VariableChunk(a, sizes, 0, 3) == Success(FillBlocks(a2, sizes, 0, 2));
  }

  lemma FirstOfThree(a: Allocator, sizes: seq<Idx>)
    requires a == NewAllocator(25, Variable, Fresh) && sizes == [10, 10, 10]
    ensures BuildChunk(a, sizes, 0, 3)
            == Success(Step(Allocator(25, Variable, [Block(0, 25, 2)], [Block(1, 25, 20)], Pool(2)),
                            Chunk(0, 0, 0, 0, 10, 2)))
  {
    var a2 := Allocator(25, Variable, [Block(0, 25, 0)], [Block(1, 25, 0)], Pool(2));
    FirstOpens(a, sizes, a2);
    hide VariableChunk, ConstantChunk, EnsureRowBlock, EnsureHeapBlock, HeapFit, FillBlocks, GrowLast, Valid, RowsAdvanced, HeapAdvanced, Exhausted;
    var s := FillBlocks(a2, sizes, 0, 2);
    GrowLastOf([], Block(0, 25, 0), 2);
    GrowLastOf([], Block(1, 25, 0), 20);
    assert [] + [Block(0, 25, 0)] == [Block(0, 25, 0)] && [] + [Block(1, 25, 0)] == [Block(1, 25, 0)];
    assert s.alloc == Allocator(25, Variable, [Block(0, 25, 2)], [Block(1, 25, 20)], Pool(2));
    assert s.chunk == Chunk(0, 0, 0, 0, 10, 2);
  }

  lemma SecondOpens(a: Allocator, sizes: seq<Idx>, a2: Allocator)
    requires a == Allocator(25, Variable, [Block(0, 25, 2)], [Block(1, 25, 20)], Pool(2)) && sizes == [10, 10, 10]
    requires a2 == Allocator(25, Variable, [Block(0, 25, 2)], [Block(1, 25, 20), Block(2, 25, 0)], Pool(3))
    ensures 10 <= RemainingCapacity(Last(a2.heapBlocks)) && 1 <= RemainingRows(Last(a2.rowBlocks), 1)
    ensures Sum(sizes[2..3]) == 10
    ensures VariableChunk(a, sizes, 2, 3) == Success(FillBlocks(a2, sizes, 2, 1))
  {
    var a1 := EnsureRowBlock(a);
    assert a1 == a;
    assert RemainingRows(Last(a1.rowBlocks), 1) == 23;
    var a2 := EnsureHeapBlock(a1, 10);
    assert a2 == Allocator(25, Variable, [Block(0, 25, 2)], [Block(1, 25, 20), Block(2, 25, 0)], Pool(3));
    assert RemainingCapacity(Last(a2.heapBlocks)) == 25;
    FitOfTens(sizes[2..3]);
    assert sizes[2..3] == [10];
    assert Sum([10]) == Sum([]) + 10;
    assert VariableChunk(a, sizes, 2, 3) == Success(FillBlocks(a2, sizes, 2, 1));
  }

  lemma SecondOfThree(a: Allocator, sizes: seq<Idx>)
    requires a == Allocator(25, Variable, [Block(0, 25, 2)], [Block(1, 25, 20)], Pool(2)) && sizes == [10, 10, 10]
    ensures BuildChunk(a, sizes, 2, 3)
            == Success(Step(Allocator(25, Variable, [Block(0, 25, 3)], [Block(1, 25, 20), Block(2, 25, 10)], Pool(3)),
                            Chunk(0, 2, 1, 0, 10, 1)))
  {
    var a2 := Allocator(25, Variable, [Block(0, 25, 2)], [Block(1, 25, 20), Block(2, 25, 0)], Pool(3));
    SecondOpens(a, sizes, a2);
    hide VariableChunk, ConstantChunk, EnsureRowBlock, EnsureHeapBlock, HeapFit, FillBlocks, GrowLast, Valid, RowsAdvanced, HeapAdvanced, Exhausted;
    var s := FillBlocks(a2, sizes, 2, 1);
    GrowLastOf([], Block(0, 25, 2), 1);
    GrowLastOf([Block(1, 25, 20)], Block(2, 25, 0), 10);
    assert [] + [Block(0, 25, 2)] == [Block(0, 25, 2)];
    assert s.alloc == Allocator(25, Variable, [Block(0, 25, 3)], [Block(1, 25, 20), Block(2, 25, 10)], Pool(3));
    assert s.chunk == Chunk(0, 2, 1, 0, 10, 1);
  }

  lemma GrowLastOf(init: seq<Block>, b: Block, grow: nat)
    ensures GrowLast(init + [b], grow) == init + [b.(size := b.size + grow)]
  {
    assert (init + [b])[..|init|] == init;
  }
}

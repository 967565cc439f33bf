/** The allocator steps exactly as the repository writes them, next to the
    corrected steps the rest of the model uses. Each member here either
    reproduces one divergence from the evidently intended behaviour or pins
    down when the two versions agree. */
module TupleDataAsWritten {
  import opened Results
  import opened TupleDataBlocks
  import opened TupleDataAllocator
  import opened TupleDataPins
  import TupleDataBuild
  import ByteOrder

  /** The payload scan as written: it runs over every row up to `count`,
      ignoring how many rows the row block can take, and on overflow stores
      the absolute row index `i` into `next`. Otherwise `next` is kept. */
  function Scan(sizes: seq<Idx>, offset: nat, i: nat, count: nat, total: nat, room: nat, next: nat): (r: (nat, nat))
    requires offset <= i <= count <= |sizes| && total == Sum(sizes[offset..i])
    ensures r == (next, Sum(sizes[offset..count]))
            || (i <= r.0 < count && r.1 == Sum(sizes[offset..r.0]) && r.1 + sizes[r.0] > room)
    ensures total <= room ==> r.1 <= room
    decreases count - i
  {
    if i == count then (next, total)
    else
      SumSnoc(sizes, offset, i);
      if total + sizes[i] > room then (i, total)
      else Scan(sizes, offset, i + 1, count, total + sizes[i], room, next)
  }

  /** The step's descriptor is the as-written one for its allocator: the
      lengths of the block lists and the row block's fill after growth, where
      the index of the last block and the fill before growth are meant. */
  predicate DescribedAsWritten(s: Step)
  {
    && |s.alloc.rowBlocks| > 0
    && s.chunk.rowBlockIndex == |s.alloc.rowBlocks| && s.chunk.heapBlockIndex == |s.alloc.heapBlocks|
    && s.chunk.rowBlockOffset == Last(s.alloc.rowBlocks).size
  }

  /** BuildChunk as written, without payloads: the rows placed are the
      corrected ones; only the descriptor differs. */
  function ConstantChunkAsWritten(a: Allocator, offset: nat, count: nat): (r: Result<Step, AllocError>)
    requires a.layout.rowWidth > 0 && a.layout.allConstant && offset < count
    ensures r.Failure? ==> r.error == ZeroCountChunk
    ensures r.Success? ==> r.value.chunk.count > 0 && r.value.alloc.heapBlocks == a.heapBlocks
    ensures r.Success? ==> DescribedAsWritten(r.value)
  {
    var a1 := EnsureRowBlock(a);
    var rowNext := Min(RemainingRows(Last(a1.rowBlocks), a.layout.rowWidth), count - offset);
    var a2 := a1.(rowBlocks := GrowLast(a1.rowBlocks, rowNext * a.layout.rowWidth));
    if rowNext == 0 then Failure(ZeroCountChunk)
    else Success(Step(a2, Chunk(|a2.rowBlocks|, Last(a2.rowBlocks).size, |a2.heapBlocks|, 0, 0, rowNext)))
  }

  /** The blocks both versions open before they fill anything. */
  function Opening(a: Allocator, sizes: seq<Idx>, offset: nat): (a2: Allocator)
    requires !a.layout.allConstant && offset < |sizes|
    ensures |a2.rowBlocks| > 0 && |a2.heapBlocks| > 0 && a2.layout == a.layout
    ensures a2.rowBlocks == EnsureRowBlock(a).rowBlocks
    ensures Valid(a) ==> Valid(a2)
  {
    EnsureHeapBlock(EnsureRowBlock(a), sizes[offset])
  }

  /** Both last blocks grown, by `next` rows and `heapBytes` payload bytes,
      under the as-written descriptor. */
  function GrowAsWritten(a2: Allocator, heapOffset: nat, last: Idx, next: nat, heapBytes: nat): (s: Step)
    requires |a2.rowBlocks| > 0 && |a2.heapBlocks| > 0
    ensures DescribedAsWritten(s) && s.chunk.count == next
  {
    var a3 := a2.(heapBlocks := GrowLast(a2.heapBlocks, heapBytes),
                  rowBlocks := GrowLast(a2.rowBlocks, next * a2.layout.rowWidth));
    Step(a3, Chunk(|a3.rowBlocks|, Last(a3.rowBlocks).size, |a3.heapBlocks|, heapOffset, last, next))
  }

  /** BuildChunk as written, with payloads: the heap scan covers rows
      `offset` .. `count` - 1 and may replace the row-limited `next` by an
      absolute row index; the payload size of row `offset + next - 1` is read
      even when the caller did not fill that row. */
  function VariableChunkAsWritten(a: Allocator, sizes: seq<Idx>, offset: nat, count: nat): (r: Result<Step, AllocError>)
    requires a.layout.rowWidth > 0 && !a.layout.allConstant && offset < count <= |sizes|
    ensures r.Success? ==> r.value.chunk.count > 0
    ensures r.Failure? ==> r.error == ZeroCountChunk || r.error == SizeReadPastCount
    ensures r.Success? ==> DescribedAsWritten(r.value)
  {
    var a2 := Opening(a, sizes, offset);
    var rowNext := Min(RemainingRows(Last(a2.rowBlocks), a.layout.rowWidth), count - offset);
    var heapOffset := Last(a2.heapBlocks).size;
    assert sizes[offset..offset] == [];
    var (next, total) := Scan(sizes, offset, offset, count, 0, RemainingCapacity(Last(a2.heapBlocks)), rowNext);
    var lastIndex := offset + next - 1;
    if lastIndex < 0 || lastIndex >= count then Failure(SizeReadPastCount)
    else
      ByteOrder.MulMono(0, next, a.layout.rowWidth);
      if next == 0 then Failure(ZeroCountChunk)
      else Success(GrowAsWritten(a2, heapOffset, sizes[lastIndex], next, total))
  }

  /** BuildChunk as written: the same dispatch as the corrected step. */
  function BuildChunkAsWritten(a: Allocator, sizes: seq<Idx>, offset: nat, count: nat): (r: Result<Step, AllocError>)
    requires a.layout.rowWidth > 0
    requires offset < count
    requires !a.layout.allConstant ==> count <= |sizes|
    ensures r.Success? ==> r.value.chunk.count > 0 && DescribedAsWritten(r.value)
    ensures r.Failure? ==> r.error == ZeroCountChunk || (r.error == SizeReadPastCount && !a.layout.allConstant)
  {
    if a.layout.allConstant then ConstantChunkAsWritten(a, offset, count)
    else VariableChunkAsWritten(a, sizes, offset, count)
  }

  /** Without payloads the as-written step places the same rows as the
      corrected one; only its descriptor is shifted, to one past the last row
      block and to the end of the rows it just placed. */
  lemma AsWrittenAgreesWithoutPayloads(a: Allocator, offset: nat, count: nat)
    requires a.layout.rowWidth > 0 && a.layout.allConstant && offset < count
    ensures BuildChunkAsWritten(a, [], offset, count).Success? <==> BuildChunk(a, [], offset, count).Success?
    ensures BuildChunk(a, [], offset, count).Success? ==>
              var s, t := BuildChunkAsWritten(a, [], offset, count).value, BuildChunk(a, [], offset, count).value;
              && s.alloc == t.alloc && s.chunk.count == t.chunk.count
              && s.chunk.rowBlockIndex == t.chunk.rowBlockIndex + 1
              && s.chunk.rowBlockOffset == t.chunk.rowBlockOffset + t.chunk.count * a.layout.rowWidth
  {
  }

  /** When all the payloads fit, the as-written scan runs to the end without
      touching `next`. */
  lemma ScanWhenAllFit(sizes: seq<Idx>, offset: nat, count: nat, room: nat, next: nat)
    requires offset <= count <= |sizes| && Sum(sizes[offset..count]) <= room
    ensures sizes[offset..offset] == []
    ensures Scan(sizes, offset, offset, count, 0, room, next) == (next, Sum(sizes[offset..count]))
  {
    assert sizes[offset..offset] == [];
    var r := Scan(sizes, offset, offset, count, 0, room, next);
    if r != (next, Sum(sizes[offset..count])) {
      SumSnoc(sizes, offset, r.0);
      SumMono(sizes, offset, r.0 + 1, count);
    }
  }

  /** The conditions under which neither version's scan stops early: the
      opened row block takes all `n` remaining rows and the opened heap block
      all their payloads. */
  predicate AllFit(a: Allocator, a2: Allocator, sizes: seq<Idx>, offset: nat, n: nat)
  {
    && a.layout.rowWidth > 0 && !a.layout.allConstant && 0 < n && offset + n <= |sizes|
    && a2 == Opening(a, sizes, offset)
    && n <= RemainingRows(Last(a2.rowBlocks), a.layout.rowWidth)
    && Sum(sizes[offset..offset + n]) <= RemainingCapacity(Last(a2.heapBlocks))
  }

  /** With payloads, when the opened row block takes every remaining row and
      the opened heap block all their payloads, the as-written scan never
      breaks: the step fills the blocks exactly as the corrected step's
      FillBlocks does, keeping the invariant, and only the descriptor differs:
      both block indices one higher and the row offset moved past the rows
      just placed. */
  lemma {:induction false} AsWrittenWhenAllFit(a: Allocator, a2: Allocator, sizes: seq<Idx>, offset: nat, n: nat)
    requires AllFit(a, a2, sizes, offset, n)
    ensures var f := FillBlocks(a2, sizes, offset, n);
            && VariableChunkAsWritten(a, sizes, offset, offset + n)
               == Success(Step(f.alloc, f.chunk.(rowBlockIndex := f.chunk.rowBlockIndex + 1,
                                                 heapBlockIndex := f.chunk.heapBlockIndex + 1,
                                                 rowBlockOffset := f.chunk.rowBlockOffset + n * a.layout.rowWidth)))
            && (Valid(a) ==> Valid(f.alloc))
  {
    hide VariableChunkAsWritten, GrowAsWritten, Opening, FillBlocks, Scan;
    var f := FillBlocks(a2, sizes, offset, n);
    var g := GrowAsWritten(a2, Last(a2.heapBlocks).size, sizes[offset + n - 1], n, Sum(sizes[offset..offset + n]));
    AllFitScan(a, a2, sizes, offset, n);
    AllFitGrow(a2, sizes, offset, n);
    assert a2.layout == a.layout;
    assert VariableChunkAsWritten(a, sizes, offset, offset + n) == Success(g);
  }

  /** Under AllFit the as-written step is the as-written growth by all `n`
      rows and their payloads. */
  lemma {:induction false} AllFitScan(a: Allocator, a2: Allocator, sizes: seq<Idx>, offset: nat, n: nat)
    requires AllFit(a, a2, sizes, offset, n)
    ensures VariableChunkAsWritten(a, sizes, offset, offset + n)
            == Success(GrowAsWritten(a2, Last(a2.heapBlocks).size, sizes[offset + n - 1], n, Sum(sizes[offset..offset + n])))
  {
    ScanWhenAllFit(sizes, offset, offset + n, RemainingCapacity(Last(a2.heapBlocks)), n);
    ScannedAsWritten(a, a2, sizes, offset, offset + n, n, n, Sum(sizes[offset..offset + n]));
  }

  /** The as-written step once its scan has returned `(next, total)` with
      `next` inside the caller's rows. */
  lemma {:induction false} ScannedAsWritten(a: Allocator, a2: Allocator, sizes: seq<Idx>, offset: nat, count: nat,
                         rowNext: nat, next: nat, total: nat)
    requires a.layout.rowWidth > 0 && !a.layout.allConstant && offset < count <= |sizes|
    requires a2 == Opening(a, sizes, offset)
    requires rowNext == Min(RemainingRows(Last(a2.rowBlocks), a.layout.rowWidth), count - offset)
    requires sizes[offset..offset] == []
    requires Scan(sizes, offset, offset, count, 0, RemainingCapacity(Last(a2.heapBlocks)), rowNext) == (next, total)
    requires 0 < next <= count - offset
    ensures VariableChunkAsWritten(a, sizes, offset, count)
            == Success(GrowAsWritten(a2, Last(a2.heapBlocks).size, sizes[offset + next - 1], next, total))
  {
    hide Opening, GrowAsWritten, Scan, Valid, FillBlocks;
  }

  /** The as-written growth by rows that fit is FillBlocks' growth, under a
      descriptor with both block indices one higher and the row offset past
      the rows placed. */
  lemma {:induction false} AllFitGrow(a2: Allocator, sizes: seq<Idx>, offset: nat, n: nat)
    requires a2.layout.rowWidth > 0 && |a2.rowBlocks| > 0 && |a2.heapBlocks| > 0
    requires 0 < n && offset + n <= |sizes|
    requires n <= RemainingRows(Last(a2.rowBlocks), a2.layout.rowWidth)
    requires Sum(sizes[offset..offset + n]) <= RemainingCapacity(Last(a2.heapBlocks))
    ensures var f := FillBlocks(a2, sizes, offset, n);
            GrowAsWritten(a2, Last(a2.heapBlocks).size, sizes[offset + n - 1], n, Sum(sizes[offset..offset + n]))
            == Step(f.alloc, f.chunk.(rowBlockIndex := f.chunk.rowBlockIndex + 1,
                                      heapBlockIndex := f.chunk.heapBlockIndex + 1,
                                      rowBlockOffset := f.chunk.rowBlockOffset + n * a2.layout.rowWidth))
  {
    var f := FillBlocks(a2, sizes, offset, n);
    hide FillBlocks;
    assert Last(f.alloc.rowBlocks).size == Last(a2.rowBlocks).size + n * a2.layout.rowWidth;
  }

  /** Row block index of the as-written descriptor is one past the end: with
      any sound pin cache, resolving it fails. */
  lemma AsWrittenDescriptorOutOfRange(a: Allocator, sizes: seq<Idx>, offset: nat, count: nat, cache: PinCache)
    requires a.layout.rowWidth > 0 && offset < count
    requires !a.layout.allConstant ==> count <= |sizes|
    requires BuildChunkAsWritten(a, sizes, offset, count).Success?
    requires CacheSound(cache, BuildChunkAsWritten(a, sizes, offset, count).value.alloc)
    ensures var s := BuildChunkAsWritten(a, sizes, offset, count).value;
            GetRowPointer(s.alloc, cache, s.chunk) == Failure(BlockIndexOutOfRange)
  {
  }

  const Variable := Layout(1, 0, false)
  const Wide := Layout(25, 0, false)
  const Fresh := Pool(0)

  /** Five rows of 10 payload bytes each, one-byte rows, 25-byte blocks: the
      first step places rows 0 and 1. The second starts at row 2 with a new
      heap block, the scan overflows at row 4 and stores 4 as the count, so the
      step reads the payload size of row 5, past the 5 rows the caller filled.
      The corrected step places rows 2 and 3. */
  lemma ReadPastCountExample()
    ensures var a := NewAllocator(25, Variable, Fresh);
            var sizes: seq<Idx> := [10, 10, 10, 10, 10];
            && BuildChunkAsWritten(a, sizes, 0, 5).Success?
            && BuildChunkAsWritten(a, sizes, 0, 5).value.chunk.count == 2
            && BuildChunkAsWritten(BuildChunkAsWritten(a, sizes, 0, 5).value.alloc, sizes, 2, 5)
               == Failure(SizeReadPastCount)
            && BuildChunk(a, sizes, 0, 5).Success?
            && BuildChunk(a, sizes, 0, 5).value.chunk.count == 2
            && BuildChunk(BuildChunk(a, sizes, 0, 5).value.alloc, sizes, 2, 5).Success?
            && BuildChunk(BuildChunk(a, sizes, 0, 5).value.alloc, sizes, 2, 5).value.chunk.count == 2
  {
    var a := NewAllocator(25, Variable, Fresh);
    var sizes: seq<Idx> := [10, 10, 10, 10, 10];
    FirstStepOfFive(a, sizes);
    var s := BuildChunkAsWritten(a, sizes, 0, 5).value;
    var t := BuildChunk(a, sizes, 0, 5).value;
    assert s.alloc == t.alloc;
    SecondStepOfFive(s.alloc, sizes);
  }

  /** The first step of ReadPastCountExample: both versions take rows 0 and 1
      and fill 2 bytes of the row block and 20 of the heap block. */
  lemma FirstStepOfFive(a: Allocator, sizes: seq<Idx>)
    requires a == NewAllocator(25, Variable, Fresh) && sizes == [10, 10, 10, 10, 10]
    ensures BuildChunkAsWritten(a, sizes, 0, 5).Success? && BuildChunk(a, sizes, 0, 5).Success?
    ensures var s, t := BuildChunkAsWritten(a, sizes, 0, 5).value, BuildChunk(a, sizes, 0, 5).value;
            && s.chunk.count == 2 && t.chunk.count == 2 && s.alloc == t.alloc
            && s.alloc.rowBlocks == [Block(0, 25, 2)] && s.alloc.heapBlocks == [Block(1, 25, 20)]
            && s.alloc.layout == Variable && s.alloc.blockSize == 25 && s.alloc.pool == Pool(2)
  {
    var a1 := EnsureRowBlock(a);
    assert a1.rowBlocks == [Block(0, 25, 0)] && a1.pool == Pool(1);
    assert RemainingRows(Last(a1.rowBlocks), 1) == 25;
    var a2 := EnsureHeapBlock(a1, 10);
    assert a2.heapBlocks == [Block(1, 25, 0)] && a2.pool == Pool(2);
    assert RemainingCapacity(Last(a2.heapBlocks)) == 25;
    assert Sum(sizes[0..0]) == 0;
    SumSnoc(sizes, 0, 0);
    SumSnoc(sizes, 0, 1);
    SumSnoc(sizes, 0, 2);
    assert Scan(sizes, 0, 0, 5, 0, 25, 5) == (2, 20);
    FitOfTens(sizes[0..5]);
  }

  lemma SecondStepOfFive(a: Allocator, sizes: seq<Idx>)
    requires sizes == [10, 10, 10, 10, 10]
    requires a == Allocator(25, Variable, [Block(0, 25, 2)], [Block(1, 25, 20)], Pool(2))
    ensures BuildChunkAsWritten(a, sizes, 2, 5) == Failure(SizeReadPastCount)
    ensures BuildChunk(a, sizes, 2, 5).Success? && BuildChunk(a, sizes, 2, 5).value.chunk.count == 2
  {
    var a1 := EnsureRowBlock(a);
    assert a1 == a;
    assert RemainingRows(Last(a1.rowBlocks), 1) == 23;
    var a2 := EnsureHeapBlock(a1, 10);
    assert a2.heapBlocks == [Block(1, 25, 20), Block(2, 25, 0)];
    assert RemainingCapacity(Last(a2.heapBlocks)) == 25;
    assert Sum(sizes[2..2]) == 0;
    SumSnoc(sizes, 2, 2);
    SumSnoc(sizes, 2, 3);
    SumSnoc(sizes, 2, 4);
    assert Scan(sizes, 2, 2, 5, 0, 25, 3) == (4, 20);
    FitOfTens(sizes[2..5]);
  }

  lemma {:induction false} SumOfTens(s: seq<Idx>, j: nat)
    requires j <= |s| && forall i :: 0 <= i < |s| ==> s[i] == 10
    ensures Sum(s[..j]) == 10 * j
  {
    if j > 0 {
      SumSnoc(s, 0, j - 1);
      SumOfTens(s, j - 1);
    }
  }

  /** Payloads of 10 bytes: two of them fit in 25 bytes, three do not. */
  lemma FitOfTens(s: seq<Idx>)
    requires forall i :: 0 <= i < |s| ==> s[i] == 10
    ensures HeapFit(s, 25) == Min(|s|, 2)
  {
    var k := HeapFit(s, 25);
    SumOfTens(s, k);
    if k < |s| {
      SumOfTens(s, k + 1);
    }
  }

  /** One 25-byte row per block and two rows of 1 payload byte: the step
      places one row but marks the payloads of both as filled. */
  lemma HeapOvercountExample()
    ensures var a := NewAllocator(25, Wide, Fresh);
            var sizes: seq<Idx> := [1, 1];
            && BuildChunkAsWritten(a, sizes, 0, 2).Success?
            && BuildChunkAsWritten(a, sizes, 0, 2).value.chunk.count == 1
            && Last(BuildChunkAsWritten(a, sizes, 0, 2).value.alloc.heapBlocks).size == 2
            && BuildChunk(a, sizes, 0, 2).Success?
            && BuildChunk(a, sizes, 0, 2).value.chunk.count == 1
            && Last(BuildChunk(a, sizes, 0, 2).value.alloc.heapBlocks).size == 1
  {
    var a := NewAllocator(25, Wide, Fresh);
    var sizes: seq<Idx> := [1, 1];
    var a2 := Allocator(25, Wide, [Block(0, 25, 0)], [Block(1, 25, 0)], Pool(2));
    OneRowOpened(a, a2, sizes);
    OvercountAsWritten(a, a2, sizes);
    OvercountCorrected(a, a2, sizes);
  }

  /** Both versions open one row block with room for one row and one heap
      block with room for 25 bytes. */
  lemma OneRowOpened(a: Allocator, a2: Allocator, sizes: seq<Idx>)
    requires a == NewAllocator(25, Wide, Fresh) && sizes == [1, 1]
    requires a2 == Allocator(25, Wide, [Block(0, 25, 0)], [Block(1, 25, 0)], Pool(2))
    ensures EnsureHeapBlock(EnsureRowBlock(a), sizes[0]) == a2
    ensures RemainingRows(Last(EnsureRowBlock(a).rowBlocks), 25) == 1
    ensures RemainingCapacity(Last(a2.heapBlocks)) == 25
  {
    var a1 := EnsureRowBlock(a);
    assert a1.rowBlocks == [Block(0, 25, 0)] && a1.pool == Pool(1);
  }

  lemma OvercountAsWritten(a: Allocator, a2: Allocator, sizes: seq<Idx>)
    requires sizes == [1, 1] && a == NewAllocator(25, Wide, Fresh)
    requires a2 == EnsureHeapBlock(EnsureRowBlock(a), sizes[0]) && RemainingCapacity(Last(a2.heapBlocks)) == 25
    requires RemainingRows(Last(EnsureRowBlock(a).rowBlocks), 25) == 1
    ensures BuildChunkAsWritten(a, sizes, 0, 2).Success?
    ensures BuildChunkAsWritten(a, sizes, 0, 2).value.chunk.count == 1
    ensures Last(BuildChunkAsWritten(a, sizes, 0, 2).value.alloc.heapBlocks).size == Last(a2.heapBlocks).size + 2
  {
    assert Sum(sizes[0..0]) == 0;
    SumSnoc(sizes, 0, 0);
    SumSnoc(sizes, 0, 1);
    assert Scan(sizes, 0, 0, 2, 0, 25, 1) == (1, 2);
  }

  lemma OvercountCorrected(a: Allocator, a2: Allocator, sizes: seq<Idx>)
    requires sizes == [1, 1] && a == NewAllocator(25, Wide, Fresh)
    requires a2 == EnsureHeapBlock(EnsureRowBlock(a), sizes[0]) && RemainingCapacity(Last(a2.heapBlocks)) == 25
    requires RemainingRows(Last(EnsureRowBlock(a).rowBlocks), 25) == 1
    ensures BuildChunk(a, sizes, 0, 2).Success?
    ensures BuildChunk(a, sizes, 0, 2).value.chunk.count == 1
    ensures Last(BuildChunk(a, sizes, 0, 2).value.alloc.heapBlocks).size == Last(a2.heapBlocks).size + 1
  {
    var s := sizes[0..1];
    assert s[..1] == s && s[..0] == [];
    assert Sum(s) == 1;
    assert HeapFit(s, 25) == 1;
  }

  /** One 25-byte row per block and three rows of 10 payload bytes: the scan
      overflows at row 2 and stores 2 as the count, so a block with room for
      one row is filled with two, 50 bytes in a 25-byte block. */
  lemma RowOverfillExample()
    ensures var a := NewAllocator(25, Wide, Fresh);
            var sizes: seq<Idx> := [10, 10, 10];
            && BuildChunkAsWritten(a, sizes, 0, 3).Success?
            && BuildChunkAsWritten(a, sizes, 0, 3).value.chunk.count == 2
            && Last(BuildChunkAsWritten(a, sizes, 0, 3).value.alloc.rowBlocks).size == 50
            && Last(BuildChunkAsWritten(a, sizes, 0, 3).value.alloc.rowBlocks).capacity == 25
            && BuildChunk(a, sizes, 0, 3).Success?
            && Valid(BuildChunk(a, sizes, 0, 3).value.alloc)
  {
    var a := NewAllocator(25, Wide, Fresh);
    var sizes: seq<Idx> := [10, 10, 10];
    var a1 := EnsureRowBlock(a);
    assert RemainingRows(Last(a1.rowBlocks), 25) == 1;
    var a2 := EnsureHeapBlock(a1, 10);
    assert RemainingCapacity(Last(a2.heapBlocks)) == 25;
    assert Sum(sizes[0..0]) == 0;
    SumSnoc(sizes, 0, 0);
    SumSnoc(sizes, 0, 1);
    SumSnoc(sizes, 0, 2);
    assert Scan(sizes, 0, 0, 3, 0, 25, 1) == (2, 20);
  }

  /** PinHeapBlock as written: the memo is looked up in the heap map but the
      new handle is stored in the row map. */
  function PinHeapBlockAsWritten(a: Allocator, cache: PinCache, index: nat): (r: Result<PinCache, AllocError>)
    ensures index in cache.heapHandles ==> r == Success(cache)
    ensures index !in cache.heapHandles ==> (r.Success? <==> index < |a.heapBlocks|)
    ensures r.Success? ==> r.value.heapHandles == cache.heapHandles
    ensures r.Success? && index !in cache.heapHandles ==>
              && r.value.pins == cache.pins + 1
              && index in r.value.rowHandles
              && r.value.rowHandles == cache.rowHandles[index := r.value.rowHandles[index]]
              && r.value.rowHandles[index].block == a.heapBlocks[index].handle
  {
    if index in cache.heapHandles then Success(cache)
    else if index >= |a.heapBlocks| then Failure(BlockIndexOutOfRange)
    else
      var (h, pins) := Pin(cache.pins, a.heapBlocks[index]);
      Success(cache.(rowHandles := cache.rowHandles[index := h], pins := pins))
  }

  /** GetHeapPointer on top of the as-written pin: the heap map slot it reads
      was never filled. */
  function GetHeapPointerAsWritten(a: Allocator, cache: PinCache, c: Chunk): (r: Result<Pointer, AllocError>)
    ensures c.heapBlockIndex !in cache.heapHandles ==> r.Failure?
    ensures c.heapBlockIndex in cache.heapHandles ==>
              r == Success(Pointer(Addr(cache.heapHandles[c.heapBlockIndex].block, c.heapBlockOffset), cache))
  {
    var p :- PinHeapBlockAsWritten(a, cache, c.heapBlockIndex);
    if c.heapBlockIndex !in p.heapHandles then Failure(InvalidHandle)
    else Success(Pointer(Addr(p.heapHandles[c.heapBlockIndex].block, c.heapBlockOffset), p))
  }

  /** With nothing cached, the as-written heap pin never serves its own
      lookup: every call pins again, and it leaves the heap block's handle in
      the row map, where a later row pointer for the same index picks up the
      heap block's buffer. The corrected pin caches once and keeps the cache
      sound. */
  lemma HeapPinExample(a: Allocator, index: nat)
    requires Valid(a) && index < |a.heapBlocks| && index < |a.rowBlocks|
    ensures var p := PinHeapBlockAsWritten(a, EmptyCache, index).value;
            && PinHeapBlockAsWritten(a, p, index).value.pins == 2
            && GetHeapPointerAsWritten(a, EmptyCache, Chunk(0, 0, index, 0, 0, 1)) == Failure(InvalidHandle)
            && GetRowPointer(a, p, Chunk(index, 0, 0, 0, 0, 1)).value.addr.block == a.heapBlocks[index].handle
            && (a.heapBlocks[index].handle != a.rowBlocks[index].handle ==> !CacheSound(p, a))
    ensures var q := PinHeapBlock(a, EmptyCache, index).value;
            && PinHeapBlock(a, q, index) == Success(q)
            && q.pins == 1
            && CacheSound(q, a)
  {
  }

  /** Build's payload-address loop as written: the payload sizes are read
      from the buffer the addresses are being written to, so each entry is
      the previous address added to itself (in 64-bit pointer arithmetic). */
  function HeapLocationsAsWritten(first: Idx, n: nat): (run: seq<Idx>)
    ensures |run| == n
    ensures forall i :: 0 <= i < n ==> run[i] == (first * Pow2(i)) % IDX_MODULUS
  {
    if n == 0 then []
    else
      var prev := HeapLocationsAsWritten(first, n - 1);
      if n == 1 then [first]
      else
        DoubleMod(first, n - 2);
        prev + [(prev[n - 2] + prev[n - 2]) % IDX_MODULUS]
  }

  function Pow2(i: nat): (p: nat)
    ensures p > 0
  {
    if i == 0 then 1 else 2 * Pow2(i - 1)
  }

  lemma DoubleMod(first: Idx, i: nat)
    ensures ((first * Pow2(i)) % IDX_MODULUS + (first * Pow2(i)) % IDX_MODULUS) % IDX_MODULUS
            == (first * Pow2(i + 1)) % IDX_MODULUS
  {
    var x := first * Pow2(i);
    assert first * Pow2(i + 1) == x + x;
    ModAdd(x, x);
  }

  lemma ModAdd(x: int, y: int)
    ensures (x % IDX_MODULUS + y % IDX_MODULUS) % IDX_MODULUS == (x + y) % IDX_MODULUS
  {
    var m := IDX_MODULUS;
    assert x == (x / m) * m + x % m;
    assert y == (y / m) * m + y % m;
    assert x + y == (x / m + y / m) * m + (x % m + y % m);
    ModShift(x % m + y % m, x / m + y / m);
  }

  lemma ModShift(r: int, k: int)
    ensures (r + k * IDX_MODULUS) % IDX_MODULUS == r % IDX_MODULUS
  {
  }

  /** Two rows of 8 payload bytes whose first payload is at address 4096: as
      written the second row's payload address is 8192, where the payloads laid
      end to end put it at 4104. */
  lemma HeapLocationsExample(block: nat)
    ensures HeapLocationsAsWritten(4096, 2) == [4096, 8192]
    ensures TupleDataBuild.HeapRun(Addr(block, 4096), [8, 8], 0, 2) == [Addr(block, 4096), Addr(block, 4104)]
  {
    var sizes: seq<Idx> := [8, 8];
    assert Sum(sizes[0..0]) == 0;
    SumSnoc(sizes, 0, 0);
  }
}

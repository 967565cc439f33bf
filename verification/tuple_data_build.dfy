/** Build: place `count` rows chunk by chunk, and hand back for every row the
    address its fixed-width part is written to and, for layouts with
    payloads, the address of its heap payload and the back-pointer written
    into the row. */
module TupleDataBuild {
  import opened Results
  import opened TupleDataBlocks
  import opened TupleDataAllocator
  import opened TupleDataPins
  import ByteOrder

  /** Store<data_ptr_t>(value, at): a heap address written into a row. */
  datatype PointerWrite = PointerWrite(at: Addr, value: Addr)

  /** What Build leaves behind: the allocator and pin cache after it, the
      segment's chunk list, and the per-row output vectors. */
  datatype Appended = Appended(alloc: Allocator, cache: PinCache, chunks: seq<Chunk>,
                               rowLocations: seq<Addr>, heapLocations: seq<Addr>,
                               writes: seq<PointerWrite>)

  function SumCounts(chunks: seq<Chunk>): (n: nat)
  {
    if |chunks| == 0 then 0 else SumCounts(chunks[..|chunks| - 1]) + chunks[|chunks| - 1].count
  }

  /** The addresses of `n` rows of width `w` laid out from `base`. */
  function RowRun(base: Addr, w: nat, n: nat): (run: seq<Addr>)
  {
    seq(n, i requires 0 <= i < n => Addr(base.block, base.offset + i * w))
  }

  /** The payload addresses of rows `from` .. `from + n - 1` laid out from
      `base`: each row's payload starts after all earlier rows' payloads. */
  function HeapRun(base: Addr, sizes: seq<Idx>, from: nat, n: nat): (run: seq<Addr>)
    requires from + n <= |sizes|
  {
    seq(n, i requires 0 <= i < n => Addr(base.block, base.offset + Sum(sizes[from..from + i])))
  }

  /** The chunk names an existing row block and its rows lie within the
      filled part of that block. */
  predicate RowsInBlock(c: Chunk, blocks: seq<Block>, w: nat)
  {
    c.rowBlockIndex < |blocks| && c.rowBlockOffset + c.count * w <= blocks[c.rowBlockIndex].size
  }

  /** The chunk, whose first row is row `start`, names an existing heap block
      and its rows' payloads lie within the filled part of that block. */
  predicate PayloadsInBlock(c: Chunk, start: nat, blocks: seq<Block>, sizes: seq<Idx>)
  {
    start + c.count <= |sizes| && c.heapBlockIndex < |blocks|
    && c.heapBlockOffset + Sum(sizes[start..start + c.count]) <= blocks[c.heapBlockIndex].size
  }

  predicate RowsInBlocks(chunks: seq<Chunk>, blocks: seq<Block>, w: nat)
  {
    forall k :: 0 <= k < |chunks| ==> RowsInBlock(chunks[k], blocks, w)
  }

  predicate HeapsInBlocks(chunks: seq<Chunk>, blocks: seq<Block>, sizes: seq<Idx>)
  {
    forall k :: 0 <= k < |chunks| ==> PayloadsInBlock(chunks[k], SumCounts(chunks[..k]), blocks, sizes)
  }

  lemma RowsInBlocksPrefix(chunks: seq<Chunk>, blocks: seq<Block>, w: nat, n: nat)
    requires RowsInBlocks(chunks, blocks, w) && n <= |chunks|
    ensures RowsInBlocks(chunks[..n], blocks, w)
  {
    forall k | 0 <= k < n ensures chunks[..n][k] == chunks[k] { }
  }

  lemma HeapsInBlocksPrefix(chunks: seq<Chunk>, blocks: seq<Block>, sizes: seq<Idx>, n: nat)
    requires HeapsInBlocks(chunks, blocks, sizes) && n <= |chunks|
    ensures HeapsInBlocks(chunks[..n], blocks, sizes)
  {
    forall k | 0 <= k < n
      ensures chunks[..n][k] == chunks[k] && chunks[..n][..k] == chunks[..k]
    { }
  }

  /** The row addresses of consecutive chunks, one run per chunk. */
  function RowAddresses(chunks: seq<Chunk>, blocks: seq<Block>, w: nat): (r: seq<Addr>)
    requires RowsInBlocks(chunks, blocks, w)
    ensures |r| == SumCounts(chunks)
  {
    if |chunks| == 0 then []
    else
      var n := |chunks| - 1;
      var c := chunks[n];
      RowsInBlocksPrefix(chunks, blocks, w, n);
      RowAddresses(chunks[..n], blocks, w)
      + RowRun(Addr(blocks[c.rowBlockIndex].handle, c.rowBlockOffset), w, c.count)
  }

  /** The payload addresses of consecutive chunks, one run per chunk. */
  function HeapAddresses(chunks: seq<Chunk>, blocks: seq<Block>, sizes: seq<Idx>): (r: seq<Addr>)
    requires HeapsInBlocks(chunks, blocks, sizes)
    ensures |r| == SumCounts(chunks)
  {
    if |chunks| == 0 then []
    else
      var n := |chunks| - 1;
      var c := chunks[n];
      HeapsInBlocksPrefix(chunks, blocks, sizes, n);
      HeapAddresses(chunks[..n], blocks, sizes)
      + HeapRun(Addr(blocks[c.heapBlockIndex].handle, c.heapBlockOffset), sizes, SumCounts(chunks[..n]), c.count)
  }

  /** Row j's back-pointer slot, `heapOffset` bytes into the row, receives the
      address of row j's payload. */
  predicate BackPointers(rows: seq<Addr>, heaps: seq<Addr>, writes: seq<PointerWrite>, heapOffset: nat)
  {
    |rows| == |heaps| == |writes|
    && forall j :: 0 <= j < |writes| ==>
         writes[j] == PointerWrite(Addr(rows[j].block, rows[j].offset + heapOffset), heaps[j])
  }

  /** Only more blocks and more filled bytes: nothing placed is moved. */
  predicate Grown(a: Allocator, a': Allocator)
  {
    a'.blockSize == a.blockSize && a'.layout == a.layout
    && Extends(a.rowBlocks, a'.rowBlocks) && Extends(a.heapBlocks, a'.heapBlocks)
    && a.pool.nextHandle <= a'.pool.nextHandle
  }

  /** The row addresses of one chunk (Build, lines setting row_locations):
      consecutive rows lie one row width apart from the chunk's base. */
  method RowLocations(base: Addr, w: nat, n: nat) returns (run: seq<Addr>)
    ensures |run| == n
    ensures forall i :: 0 <= i < n ==> run[i] == Addr(base.block, base.offset + i * w)
    ensures run == RowRun(base, w, n)
  {
    run := [];
    var i := 0;
    while i < n
      invariant i <= n
      invariant run == RowRun(base, w, i)
    {
      run := run + [Addr(base.block, base.offset + i * w)];
      i := i + 1;
    }
  }

  /** Each payload starts where the previous row's payload ends. */
  lemma HeapRunStep(base: Addr, sizes: seq<Idx>, from: nat, n: nat, i: nat)
    requires from + n <= |sizes| && 0 < i < n
    ensures HeapRun(base, sizes, from, n)[i]
            == Addr(HeapRun(base, sizes, from, n)[i - 1].block,
                    HeapRun(base, sizes, from, n)[i - 1].offset + sizes[from + i - 1])
  {
    SumSnoc(sizes, from, from + i - 1);
  }

  /** The payload addresses of one chunk (Build, lines setting
      heap_locations): the first is the chunk's heap base, each later one is
      the previous plus the previous row's payload size. */
  method HeapLocations(base: Addr, sizes: seq<Idx>, from: nat, n: nat) returns (run: seq<Addr>)
    requires from + n <= |sizes|
    ensures |run| == n
    ensures n > 0 ==> run[0] == base
    ensures forall i :: 0 < i < n ==> run[i] == Addr(run[i - 1].block, run[i - 1].offset + sizes[from + i - 1])
    ensures run == HeapRun(base, sizes, from, n)
  {
    if n == 0 {
      return [];
    }
    assert Sum(sizes[from..from + 0]) == 0;
    assert HeapRun(base, sizes, from, 1)[0] == Addr(base.block, base.offset + Sum(sizes[from..from + 0]));
    run := [base];
    var i := 1;
    while i < n
      invariant 1 <= i <= n
      invariant run == HeapRun(base, sizes, from, i)
    {
      SumSnoc(sizes, from, from + i - 1);
      run := run + [Addr(run[i - 1].block, run[i - 1].offset + sizes[from + i - 1])];
      i := i + 1;
    }
    forall i | 0 < i < n
      ensures run[i] == Addr(run[i - 1].block, run[i - 1].offset + sizes[from + i - 1])
    {
      HeapRunStep(base, sizes, from, n, i);
    }
  }

  /** The back-pointer writes of one chunk (Build, the Store loop). */
  method HeapPointers(rows: seq<Addr>, heaps: seq<Addr>, heapOffset: nat) returns (writes: seq<PointerWrite>)
    requires |rows| == |heaps|
    ensures BackPointers(rows, heaps, writes, heapOffset)
  {
    writes := [];
    var i := 0;
    while i < |rows|
      invariant i <= |rows|
      invariant BackPointers(rows[..i], heaps[..i], writes, heapOffset)
    {
      writes := writes + [PointerWrite(Addr(rows[i].block, rows[i].offset + heapOffset), heaps[i])];
      i := i + 1;
    }
    assert rows[..i] == rows && heaps[..i] == heaps;
  }

  lemma SumCountsSnoc(chunks: seq<Chunk>, c: Chunk)
    ensures SumCounts(chunks + [c]) == SumCounts(chunks) + c.count
  {
    assert (chunks + [c])[..|chunks|] == chunks;
  }

  lemma RowsInBlocksExtends(chunks: seq<Chunk>, blocks: seq<Block>, blocks': seq<Block>, w: nat)
    requires RowsInBlocks(chunks, blocks, w) && Extends(blocks, blocks')
    ensures RowsInBlocks(chunks, blocks', w)
  {
  }

  lemma HeapsInBlocksExtends(chunks: seq<Chunk>, blocks: seq<Block>, blocks': seq<Block>, sizes: seq<Idx>)
    requires HeapsInBlocks(chunks, blocks, sizes) && Extends(blocks, blocks')
    ensures HeapsInBlocks(chunks, blocks', sizes)
  {
    forall k | 0 <= k < |chunks|
      ensures PayloadsInBlock(chunks[k], SumCounts(chunks[..k]), blocks', sizes)
    {
      assert PayloadsInBlock(chunks[k], SumCounts(chunks[..k]), blocks, sizes);
    }
  }

  /** Growing the block lists does not move any placed row. */
  lemma {:induction false} RowAddressesStable(chunks: seq<Chunk>, blocks: seq<Block>, blocks': seq<Block>, w: nat)
    requires RowsInBlocks(chunks, blocks, w) && Extends(blocks, blocks')
    ensures RowsInBlocks(chunks, blocks', w)
    ensures RowAddresses(chunks, blocks', w) == RowAddresses(chunks, blocks, w)
    decreases |chunks|
  {
    RowsInBlocksExtends(chunks, blocks, blocks', w);
    if |chunks| > 0 {
      var n := |chunks| - 1;
      RowsInBlocksPrefix(chunks, blocks, w, n);
      RowAddressesStable(chunks[..n], blocks, blocks', w);
      assert blocks'[chunks[n].rowBlockIndex].handle == blocks[chunks[n].rowBlockIndex].handle;
    }
  }

  /** Growing the block lists does not move any placed payload. */
  lemma {:induction false} HeapAddressesStable(chunks: seq<Chunk>, blocks: seq<Block>, blocks': seq<Block>, sizes: seq<Idx>)
    requires HeapsInBlocks(chunks, blocks, sizes) && Extends(blocks, blocks')
    ensures HeapsInBlocks(chunks, blocks', sizes)
    ensures HeapAddresses(chunks, blocks', sizes) == HeapAddresses(chunks, blocks, sizes)
    decreases |chunks|
  {
    HeapsInBlocksExtends(chunks, blocks, blocks', sizes);
    if |chunks| > 0 {
      var n := |chunks| - 1;
      HeapsInBlocksPrefix(chunks, blocks, sizes, n);
      HeapAddressesStable(chunks[..n], blocks, blocks', sizes);
      assert PayloadsInBlock(chunks[n], SumCounts(chunks[..n]), blocks, sizes);
      assert blocks'[chunks[n].heapBlockIndex].handle == blocks[chunks[n].heapBlockIndex].handle;
    }
  }

  /** A new chunk placed within its row block extends the row addresses by
      its run. */
  lemma RowsStep(chunks: seq<Chunk>, c: Chunk, blocks: seq<Block>, blocks': seq<Block>, w: nat)
    requires RowsInBlocks(chunks, blocks, w) && Extends(blocks, blocks')
    requires RowsInBlock(c, blocks', w)
    ensures RowsInBlocks(chunks + [c], blocks', w)
    ensures RowAddresses(chunks + [c], blocks', w)
            == RowAddresses(chunks, blocks, w) + RowRun(Addr(blocks'[c.rowBlockIndex].handle, c.rowBlockOffset), w, c.count)
  {
    RowAddressesStable(chunks, blocks, blocks', w);
    assert (chunks + [c])[..|chunks|] == chunks;
  }

  lemma HeapsInBlocksSnoc(chunks: seq<Chunk>, c: Chunk, blocks: seq<Block>, sizes: seq<Idx>)
    requires HeapsInBlocks(chunks, blocks, sizes) && PayloadsInBlock(c, SumCounts(chunks), blocks, sizes)
    ensures HeapsInBlocks(chunks + [c], blocks, sizes)
  {
    var all := chunks + [c];
    forall k | 0 <= k < |all|
      ensures PayloadsInBlock(all[k], SumCounts(all[..k]), blocks, sizes)
    {
      if k < |chunks| {
        assert all[..k] == chunks[..k] && all[k] == chunks[k];
      } else {
        assert all[..k] == chunks;
      }
    }
  }

  /** A new chunk whose payloads lie within its heap block extends the
      payload addresses by its run. */
  lemma HeapsStep(chunks: seq<Chunk>, c: Chunk, blocks: seq<Block>, blocks': seq<Block>, sizes: seq<Idx>)
    requires HeapsInBlocks(chunks, blocks, sizes) && Extends(blocks, blocks')
    requires PayloadsInBlock(c, SumCounts(chunks), blocks', sizes)
    ensures HeapsInBlocks(chunks + [c], blocks', sizes)
    ensures HeapAddresses(chunks + [c], blocks', sizes)
            == HeapAddresses(chunks, blocks, sizes)
               + HeapRun(Addr(blocks'[c.heapBlockIndex].handle, c.heapBlockOffset), sizes, SumCounts(chunks), c.count)
  {
    HeapAddressesStable(chunks, blocks, blocks', sizes);
    HeapsInBlocksSnoc(chunks, c, blocks', sizes);
    assert (chunks + [c])[..|chunks|] == chunks;
  }

  lemma BackPointersConcat(r1: seq<Addr>, h1: seq<Addr>, w1: seq<PointerWrite>,
                           r2: seq<Addr>, h2: seq<Addr>, w2: seq<PointerWrite>, heapOffset: nat)
    requires BackPointers(r1, h1, w1, heapOffset) && BackPointers(r2, h2, w2, heapOffset)
    ensures BackPointers(r1 + r2, h1 + h2, w1 + w2, heapOffset)
  {
  }

  lemma GrownTransitive(a: Allocator, b: Allocator, c: Allocator)
    requires Grown(a, b) && Grown(b, c)
    ensures Grown(a, c)
  {
    ExtendsTransitive(a.rowBlocks, b.rowBlocks, c.rowBlocks);
    ExtendsTransitive(a.heapBlocks, b.heapBlocks, c.heapBlocks);
  }

  lemma AdvancedExtends(a: Allocator, a': Allocator, c: Chunk, sizes: seq<Idx>, offset: nat)
    requires RowsAdvanced(a, a', c) && HeapAdvanced(a, a', c, sizes, offset)
    ensures Grown(a, a')
    ensures RowsInBlock(c, a'.rowBlocks, a.layout.rowWidth)
    ensures !a.layout.allConstant ==> PayloadsInBlock(c, offset, a'.heapBlocks, sizes)
  {
    LastGrownExtends(a.rowBlocks, a'.rowBlocks, c.rowBlockOffset, c.count * a.layout.rowWidth);
    if !a.layout.allConstant {
      LastGrownExtends(a.heapBlocks, a'.heapBlocks, c.heapBlockOffset, Sum(sizes[offset..offset + c.count]));
    }
  }

  /** Within one row block, chunks follow one another without overlapping,
      and a later chunk never goes back to an earlier block. */
  predicate RowsOrdered(chunks: seq<Chunk>, w: nat)
  {
    forall k, l :: 0 <= k < l < |chunks| ==>
      chunks[k].rowBlockIndex < chunks[l].rowBlockIndex
      || (chunks[k].rowBlockIndex == chunks[l].rowBlockIndex
          && chunks[k].rowBlockOffset + chunks[k].count * w <= chunks[l].rowBlockOffset)
  }

  /** The payload bytes of the rows of chunk `k`, the chunks placing rows
      from row 0 on. */
  function Payload(chunks: seq<Chunk>, k: nat, sizes: seq<Idx>): (n: nat)
    requires k < |chunks|
  {
    var start := SumCounts(chunks[..k]);
    if start + chunks[k].count <= |sizes| then Sum(sizes[start..start + chunks[k].count]) else 0
  }

  /** The heap counterpart of RowsOrdered: within one heap block, the
      payloads of one chunk end before those of the next begin. */
  predicate HeapsOrdered(chunks: seq<Chunk>, sizes: seq<Idx>)
  {
    forall k, l :: 0 <= k < l < |chunks| ==>
      chunks[k].heapBlockIndex < chunks[l].heapBlockIndex
      || (chunks[k].heapBlockIndex == chunks[l].heapBlockIndex
          && chunks[k].heapBlockOffset + Payload(chunks, k, sizes) <= chunks[l].heapBlockOffset)
  }

  /** No chunk's rows start inside the part of a row block filled in `before`. */
  predicate RowsAfter(chunks: seq<Chunk>, before: seq<Block>)
  {
    forall k :: 0 <= k < |chunks| && chunks[k].rowBlockIndex < |before| ==>
      before[chunks[k].rowBlockIndex].size <= chunks[k].rowBlockOffset
  }

  /** No chunk's payloads start inside the part of a heap block filled in `before`. */
  predicate HeapsAfter(chunks: seq<Chunk>, before: seq<Block>)
  {
    forall k :: 0 <= k < |chunks| && chunks[k].heapBlockIndex < |before| ==>
      before[chunks[k].heapBlockIndex].size <= chunks[k].heapBlockOffset
  }

  /** No two rows' slots overlap: of two rows in the same buffer, the earlier
      one ends before the later one starts. */
  predicate SlotsApart(addrs: seq<Addr>, w: nat)
  {
    forall i, j :: 0 <= i < j < |addrs| && addrs[i].block == addrs[j].block ==>
      addrs[i].offset + w <= addrs[j].offset
  }

  /** No two payloads overlap, `addrs[i]` being the payload of row `from + i`. */
  predicate PayloadsApart(addrs: seq<Addr>, sizes: seq<Idx>, from: nat)
  {
    from + |addrs| <= |sizes|
    && forall i, j :: 0 <= i < j < |addrs| && addrs[i].block == addrs[j].block ==>
         addrs[i].offset + sizes[from + i] <= addrs[j].offset
  }

  lemma RowRunApart(base: Addr, w: nat, n: nat)
    ensures SlotsApart(RowRun(base, w, n), w)
    ensures forall j :: 0 <= j < n ==> RowRun(base, w, n)[j].block == base.block && base.offset <= RowRun(base, w, n)[j].offset
  {
    var run := RowRun(base, w, n);
    forall i, j | 0 <= i < j < n
      ensures run[i].offset + w <= run[j].offset
    {
      ByteOrder.MulMono(i + 1, j, w);
    }
  }

  lemma HeapRunApart(base: Addr, sizes: seq<Idx>, from: nat, n: nat)
    requires from + n <= |sizes|
    ensures PayloadsApart(HeapRun(base, sizes, from, n), sizes, from)
    ensures forall j :: 0 <= j < n ==> HeapRun(base, sizes, from, n)[j].block == base.block && base.offset <= HeapRun(base, sizes, from, n)[j].offset
  {
    var run := HeapRun(base, sizes, from, n);
    forall j | 0 <= j < n
      ensures run[j].block == base.block && base.offset <= run[j].offset
    {
      assert run[j] == Addr(base.block, base.offset + Sum(sizes[from..from + j]));
    }
    forall i, j | 0 <= i < j < n
      ensures run[i].offset + sizes[from + i] <= run[j].offset
    {
      SumSnoc(sizes, from, from + i);
      SumMono(sizes, from, from + i + 1, from + j);
    }
  }

  lemma SlotsApartConcat(xs: seq<Addr>, ys: seq<Addr>, w: nat, h: nat, bound: nat)
    requires SlotsApart(xs, w) && SlotsApart(ys, w)
    requires forall i :: 0 <= i < |xs| && xs[i].block == h ==> xs[i].offset + w <= bound
    requires forall j :: 0 <= j < |ys| ==> ys[j].block == h && bound <= ys[j].offset
    ensures SlotsApart(xs + ys, w)
  {
    var zs := xs + ys;
    forall i, j | 0 <= i < j < |zs| && zs[i].block == zs[j].block
      ensures zs[i].offset + w <= zs[j].offset
    {
      if j >= |xs| && i < |xs| {
        assert zs[j] == ys[j - |xs|];
      } else if i >= |xs| {
        assert zs[i] == ys[i - |xs|] && zs[j] == ys[j - |xs|];
      }
    }
  }

  lemma PayloadsApartConcat(xs: seq<Addr>, ys: seq<Addr>, sizes: seq<Idx>, from: nat, h: nat, bound: nat)
    requires PayloadsApart(xs, sizes, from) && PayloadsApart(ys, sizes, from + |xs|)
    requires forall i :: 0 <= i < |xs| && xs[i].block == h ==> xs[i].offset + sizes[from + i] <= bound
    requires forall j :: 0 <= j < |ys| ==> ys[j].block == h && bound <= ys[j].offset
    ensures PayloadsApart(xs + ys, sizes, from)
  {
    var zs := xs + ys;
    forall i, j | 0 <= i < j < |zs| && zs[i].block == zs[j].block
      ensures zs[i].offset + sizes[from + i] <= zs[j].offset
    {
      if j >= |xs| && i < |xs| {
        assert zs[j] == ys[j - |xs|];
      } else if i >= |xs| {
        assert zs[i] == ys[i - |xs|] && zs[j] == ys[j - |xs|];
      }
    }
  }

  /** If every chunk in buffer `h` ends by `bound`, so does every row slot
      in it. */
  lemma {:induction false} RowsBelow(chunks: seq<Chunk>, blocks: seq<Block>, w: nat, h: nat, bound: nat)
    requires RowsInBlocks(chunks, blocks, w)
    requires forall k :: 0 <= k < |chunks| && blocks[chunks[k].rowBlockIndex].handle == h ==>
               chunks[k].rowBlockOffset + chunks[k].count * w <= bound
    ensures forall i :: 0 <= i < |RowAddresses(chunks, blocks, w)| && RowAddresses(chunks, blocks, w)[i].block == h ==>
              RowAddresses(chunks, blocks, w)[i].offset + w <= bound
    decreases |chunks|
  {
    if |chunks| > 0 {
      var n := |chunks| - 1;
      var c := chunks[n];
      RowsInBlocksPrefix(chunks, blocks, w, n);
      assert forall k :: 0 <= k < n ==> chunks[..n][k] == chunks[k];
      RowsBelow(chunks[..n], blocks, w, h, bound);
      var prev := RowAddresses(chunks[..n], blocks, w);
      var run := RowRun(Addr(blocks[c.rowBlockIndex].handle, c.rowBlockOffset), w, c.count);
      var r := RowAddresses(chunks, blocks, w);
      assert r == prev + run;
      forall i | 0 <= i < |r| && r[i].block == h
        ensures r[i].offset + w <= bound
      {
        if i < |prev| {
          assert r[i] == prev[i];
        } else {
          var m := i - |prev|;
          assert r[i] == run[m] == Addr(blocks[c.rowBlockIndex].handle, c.rowBlockOffset + m * w);
          ByteOrder.MulMono(m + 1, c.count, w);
          assert (m + 1) * w == m * w + w;
        }
      }
    }
  }

  /** The payloads of a chunk are the same whatever chunks follow it. */
  lemma PayloadPrefix(chunks: seq<Chunk>, n: nat, k: nat, sizes: seq<Idx>)
    requires k < n <= |chunks|
    ensures Payload(chunks[..n], k, sizes) == Payload(chunks, k, sizes)
  {
    assert chunks[..n][..k] == chunks[..k];
  }

  /** Every payload of a run in buffer `h` whose total ends by `bound` ends
      by `bound`. */
  lemma HeapRunBelow(base: Addr, sizes: seq<Idx>, from: nat, n: nat, h: nat, bound: nat)
    requires from + n <= |sizes|
    requires base.block == h ==> base.offset + Sum(sizes[from..from + n]) <= bound
    ensures forall i :: 0 <= i < |HeapRun(base, sizes, from, n)| && HeapRun(base, sizes, from, n)[i].block == h ==>
              HeapRun(base, sizes, from, n)[i].offset + sizes[from + i] <= bound
  {
    forall i | 0 <= i < n && base.block == h
      ensures HeapRun(base, sizes, from, n)[i].offset + sizes[from + i] <= bound
    {
      SumSnoc(sizes, from, from + i);
      SumMono(sizes, from, from + i + 1, from + n);
    }
  }

  lemma BelowConcat(xs: seq<Addr>, ys: seq<Addr>, zs: seq<Addr>, sizes: seq<Idx>, from: nat, h: nat, bound: nat)
    requires zs == xs + ys && |zs| <= |sizes| && from == |xs|
    requires forall i :: 0 <= i < |xs| && xs[i].block == h ==> xs[i].offset + sizes[i] <= bound
    requires forall i :: 0 <= i < |ys| && ys[i].block == h ==> ys[i].offset + sizes[from + i] <= bound
    ensures forall i :: 0 <= i < |zs| && zs[i].block == h ==> zs[i].offset + sizes[i] <= bound
  {
    forall i | 0 <= i < |zs| && zs[i].block == h
      ensures zs[i].offset + sizes[i] <= bound
    {
      if i < |xs| {
        assert zs[i] == xs[i];
      } else {
        assert zs[i] == ys[i - |xs|];
      }
    }
  }

  /** If every chunk in buffer `h` has its payloads end by `bound`, so does
      every payload in it. */
  lemma {:induction false} HeapsBelow(chunks: seq<Chunk>, blocks: seq<Block>, sizes: seq<Idx>, h: nat, bound: nat)
    requires HeapsInBlocks(chunks, blocks, sizes)
    requires forall k :: 0 <= k < |chunks| && blocks[chunks[k].heapBlockIndex].handle == h ==>
               chunks[k].heapBlockOffset + Payload(chunks, k, sizes) <= bound
    ensures forall i :: 0 <= i < |HeapAddresses(chunks, blocks, sizes)| && HeapAddresses(chunks, blocks, sizes)[i].block == h ==>
              HeapAddresses(chunks, blocks, sizes)[i].offset + sizes[i] <= bound
    decreases |chunks|
  {
    if |chunks| > 0 {
      var n := |chunks| - 1;
      HeapsInBlocksPrefix(chunks, blocks, sizes, n);
      HeapsBelowPrefix(chunks, blocks, sizes, h, bound, n);
      HeapsBelow(chunks[..n], blocks, sizes, h, bound);
      assert blocks[chunks[n].heapBlockIndex].handle == h ==> chunks[n].heapBlockOffset + Payload(chunks, n, sizes) <= bound;
      HeapsBelowStep(chunks, blocks, sizes, h, bound, n);
    }
  }

  /** The last chunk of HeapsBelow: its run joins the earlier payloads. */
  lemma HeapsBelowStep(chunks: seq<Chunk>, blocks: seq<Block>, sizes: seq<Idx>, h: nat, bound: nat, n: nat)
    requires HeapsInBlocks(chunks, blocks, sizes) && n == |chunks| - 1 && HeapsInBlocks(chunks[..n], blocks, sizes)
    requires forall i :: 0 <= i < |HeapAddresses(chunks[..n], blocks, sizes)| && HeapAddresses(chunks[..n], blocks, sizes)[i].block == h ==>
               HeapAddresses(chunks[..n], blocks, sizes)[i].offset + sizes[i] <= bound
    requires blocks[chunks[n].heapBlockIndex].handle == h ==> chunks[n].heapBlockOffset + Payload(chunks, n, sizes) <= bound
    ensures forall i :: 0 <= i < |HeapAddresses(chunks, blocks, sizes)| && HeapAddresses(chunks, blocks, sizes)[i].block == h ==>
              HeapAddresses(chunks, blocks, sizes)[i].offset + sizes[i] <= bound
  {
    var c := chunks[n];
    HeapAddressesSnoc(chunks, blocks, sizes, n);
    var base := Addr(blocks[c.heapBlockIndex].handle, c.heapBlockOffset);
    var from := SumCounts(chunks[..n]);
    var xs, ys := HeapAddresses(chunks[..n], blocks, sizes), HeapRun(base, sizes, from, c.count);
    assert |xs| == from && |ys| == c.count;
    HeapRunBelow(base, sizes, from, c.count, h, bound);
    BelowConcat(xs, ys, HeapAddresses(chunks, blocks, sizes), sizes, from, h, bound);
  }

  lemma HeapsBelowPrefix(chunks: seq<Chunk>, blocks: seq<Block>, sizes: seq<Idx>, h: nat, bound: nat, n: nat)
    requires n <= |chunks| && HeapsInBlocks(chunks, blocks, sizes)
    requires forall k :: 0 <= k < |chunks| && blocks[chunks[k].heapBlockIndex].handle == h ==>
               chunks[k].heapBlockOffset + Payload(chunks, k, sizes) <= bound
    ensures forall k :: 0 <= k < n && blocks[chunks[..n][k].heapBlockIndex].handle == h ==>
              chunks[..n][k].heapBlockOffset + Payload(chunks[..n], k, sizes) <= bound
  {
    forall k | 0 <= k < n && blocks[chunks[..n][k].heapBlockIndex].handle == h
      ensures chunks[..n][k].heapBlockOffset + Payload(chunks[..n], k, sizes) <= bound
    {
      assert chunks[..n][k] == chunks[k];
      PayloadPrefix(chunks, n, k, sizes);
    }
  }

  lemma RowsOrderedPrefix(chunks: seq<Chunk>, w: nat, n: nat)
    requires RowsOrdered(chunks, w) && n <= |chunks|
    ensures RowsOrdered(chunks[..n], w)
  {
    assert forall k :: 0 <= k < n ==> chunks[..n][k] == chunks[k];
  }

  lemma HeapsOrderedPrefix(chunks: seq<Chunk>, sizes: seq<Idx>, n: nat)
    requires HeapsOrdered(chunks, sizes) && n <= |chunks|
    ensures HeapsOrdered(chunks[..n], sizes)
  {
    forall k, l | 0 <= k < l < n
      ensures chunks[..n][k] == chunks[k] && chunks[..n][l] == chunks[l]
      ensures Payload(chunks[..n], k, sizes) == Payload(chunks, k, sizes)
    {
      PayloadPrefix(chunks, n, k, sizes);
    }
  }

  /** Every earlier chunk in the last chunk's row buffer ends where the last
      one starts or before. */
  lemma RowsBeforeLast(chunks: seq<Chunk>, blocks: seq<Block>, w: nat, n: nat)
    requires RowsInBlocks(chunks, blocks, w) && RowsOrdered(chunks, w) && Ascending(blocks) && n == |chunks| - 1
    ensures forall k :: (0 <= k < n && blocks[chunks[..n][k].rowBlockIndex].handle == blocks[chunks[n].rowBlockIndex].handle) ==>
              chunks[..n][k].rowBlockOffset + chunks[..n][k].count * w <= chunks[n].rowBlockOffset
  {
    forall k | 0 <= k < n && blocks[chunks[..n][k].rowBlockIndex].handle == blocks[chunks[n].rowBlockIndex].handle
      ensures chunks[..n][k].rowBlockOffset + chunks[..n][k].count * w <= chunks[n].rowBlockOffset
    {
      assert chunks[..n][k] == chunks[k];
      assert RowsInBlock(chunks[k], blocks, w) && RowsInBlock(chunks[n], blocks, w);
    }
  }

  /** Every earlier chunk in the last chunk's heap buffer has its payloads end
      where the last one's start or before. */
  lemma HeapsBeforeLast(chunks: seq<Chunk>, blocks: seq<Block>, sizes: seq<Idx>, n: nat)
    requires HeapsInBlocks(chunks, blocks, sizes) && HeapsOrdered(chunks, sizes) && Ascending(blocks) && n == |chunks| - 1
    ensures forall k :: (0 <= k < n && blocks[chunks[..n][k].heapBlockIndex].handle == blocks[chunks[n].heapBlockIndex].handle) ==>
              chunks[..n][k].heapBlockOffset + Payload(chunks[..n], k, sizes) <= chunks[n].heapBlockOffset
  {
    forall k | 0 <= k < n && blocks[chunks[..n][k].heapBlockIndex].handle == blocks[chunks[n].heapBlockIndex].handle
      ensures chunks[..n][k].heapBlockOffset + Payload(chunks[..n], k, sizes) <= chunks[n].heapBlockOffset
    {
      assert chunks[..n][k] == chunks[k];
      PayloadPrefix(chunks, n, k, sizes);
      assert PayloadsInBlock(chunks[k], SumCounts(chunks[..k]), blocks, sizes);
      assert PayloadsInBlock(chunks[n], SumCounts(chunks[..n]), blocks, sizes);
    }
  }

  /** Chunks laid out in order in blocks with distinct buffers give every row
      a slot of its own. */
  lemma {:induction false} RowAddressesApart(chunks: seq<Chunk>, blocks: seq<Block>, w: nat)
    requires RowsInBlocks(chunks, blocks, w) && RowsOrdered(chunks, w) && Ascending(blocks)
    ensures SlotsApart(RowAddresses(chunks, blocks, w), w)
    decreases |chunks|
  {
    if |chunks| > 0 {
      var n := |chunks| - 1;
      var c := chunks[n];
      var h := blocks[c.rowBlockIndex].handle;
      RowsInBlocksPrefix(chunks, blocks, w, n);
      RowsOrderedPrefix(chunks, w, n);
      RowAddressesApart(chunks[..n], blocks, w);
      RowsBeforeLast(chunks, blocks, w, n);
      RowsBelow(chunks[..n], blocks, w, h, c.rowBlockOffset);
      var run := RowRun(Addr(h, c.rowBlockOffset), w, c.count);
      RowRunApart(Addr(h, c.rowBlockOffset), w, c.count);
      SlotsApartConcat(RowAddresses(chunks[..n], blocks, w), run, w, h, c.rowBlockOffset);
    }
  }

  /** Chunks laid out in order in heap blocks with distinct buffers give every
      payload bytes of its own. */
  lemma {:induction false} HeapAddressesApart(chunks: seq<Chunk>, blocks: seq<Block>, sizes: seq<Idx>)
    requires HeapsInBlocks(chunks, blocks, sizes) && HeapsOrdered(chunks, sizes) && Ascending(blocks)
    ensures PayloadsApart(HeapAddresses(chunks, blocks, sizes), sizes, 0)
    decreases |chunks|
  {
    if |chunks| > 0 {
      var n := |chunks| - 1;
      HeapsInBlocksPrefix(chunks, blocks, sizes, n);
      HeapsOrderedPrefix(chunks, sizes, n);
      HeapAddressesApart(chunks[..n], blocks, sizes);
      HeapsApartStep(chunks, blocks, sizes, n);
    }
  }

  /** The last chunk of HeapAddressesApart: its payloads follow every earlier
      payload in its buffer. */
  lemma HeapsApartStep(chunks: seq<Chunk>, blocks: seq<Block>, sizes: seq<Idx>, n: nat)
    requires HeapsInBlocks(chunks, blocks, sizes) && HeapsOrdered(chunks, sizes) && Ascending(blocks) && n == |chunks| - 1
    requires HeapsInBlocks(chunks[..n], blocks, sizes)
    requires PayloadsApart(HeapAddresses(chunks[..n], blocks, sizes), sizes, 0)
    ensures PayloadsApart(HeapAddresses(chunks, blocks, sizes), sizes, 0)
  {
    var c := chunks[n];
    var h := blocks[c.heapBlockIndex].handle;
    HeapAddressesSnoc(chunks, blocks, sizes, n);
    PrefixBelowLast(chunks, blocks, sizes, n);
    var from := SumCounts(chunks[..n]);
    HeapRunApart(Addr(h, c.heapBlockOffset), sizes, from, c.count);
    PayloadsApartConcat(HeapAddresses(chunks[..n], blocks, sizes), HeapRun(Addr(h, c.heapBlockOffset), sizes, from, c.count),
                        sizes, 0, h, c.heapBlockOffset);
  }

  /** Every payload before the last chunk that shares its heap buffer ends
      where the last chunk's payloads start or before. */
  lemma PrefixBelowLast(chunks: seq<Chunk>, blocks: seq<Block>, sizes: seq<Idx>, n: nat)
    requires HeapsInBlocks(chunks, blocks, sizes) && HeapsOrdered(chunks, sizes) && Ascending(blocks) && n == |chunks| - 1
    requires HeapsInBlocks(chunks[..n], blocks, sizes)
    ensures forall i :: 0 <= i < |HeapAddresses(chunks[..n], blocks, sizes)|
                        && HeapAddresses(chunks[..n], blocks, sizes)[i].block == blocks[chunks[n].heapBlockIndex].handle ==>
              HeapAddresses(chunks[..n], blocks, sizes)[i].offset + sizes[i] <= chunks[n].heapBlockOffset
  {
    HeapsBeforeLast(chunks, blocks, sizes, n);
    HeapsBelow(chunks[..n], blocks, sizes, blocks[chunks[n].heapBlockIndex].handle, chunks[n].heapBlockOffset);
  }

  /** The payload addresses of the chunks are those of all but the last,
      followed by the last chunk's run. */
  lemma HeapAddressesSnoc(chunks: seq<Chunk>, blocks: seq<Block>, sizes: seq<Idx>, n: nat)
    requires HeapsInBlocks(chunks, blocks, sizes) && n == |chunks| - 1
    ensures HeapsInBlocks(chunks[..n], blocks, sizes)
    ensures PayloadsInBlock(chunks[n], SumCounts(chunks[..n]), blocks, sizes)
    ensures HeapAddresses(chunks, blocks, sizes)
            == HeapAddresses(chunks[..n], blocks, sizes)
               + HeapRun(Addr(blocks[chunks[n].heapBlockIndex].handle, chunks[n].heapBlockOffset),
                         sizes, SumCounts(chunks[..n]), chunks[n].count)
  {
    HeapsInBlocksPrefix(chunks, blocks, sizes, n);
  }

  lemma MulAdd(x: nat, y: nat, w: nat)
    ensures (x + y) * w == x * w + y * w
  {
  }

  /** A chunk that continues the last row block where it was filled, or
      starts a new block, keeps the chunks in order and in bytes not filled
      in `first`, and adds exactly its rows to the fill. */
  lemma RowsPackedSnoc(first: seq<Block>, chunks: seq<Chunk>, before: seq<Block>, after: seq<Block>, c: Chunk, w: nat)
    requires RowsInBlocks(chunks, before, w) && RowsOrdered(chunks, w) && RowsAfter(chunks, first)
    requires Extends(first, before)
    requires LastGrownBy(before, after, c.rowBlockOffset, c.count * w) && c.rowBlockIndex == |after| - 1
    ensures RowsOrdered(chunks + [c], w) && RowsAfter(chunks + [c], first)
    ensures Fill(after) == Fill(before) + c.count * w
  {
    LastGrownFill(before, after, c.rowBlockOffset, c.count * w);
    var all := chunks + [c];
    forall k, l | 0 <= k < l < |all|
      ensures all[k].rowBlockIndex < all[l].rowBlockIndex
              || (all[k].rowBlockIndex == all[l].rowBlockIndex
                  && all[k].rowBlockOffset + all[k].count * w <= all[l].rowBlockOffset)
    {
      assert all[k] == chunks[k];
      if l == |chunks| {
        assert RowsInBlock(chunks[k], before, w);
      } else {
        assert all[l] == chunks[l];
      }
    }
    forall k | 0 <= k < |all| && all[k].rowBlockIndex < |first|
      ensures first[all[k].rowBlockIndex].size <= all[k].rowBlockOffset
    {
      if k < |chunks| {
        assert all[k] == chunks[k];
      }
    }
  }

  /** A chunk placed after every chunk in its heap block keeps the chunks
      in order. */
  lemma HeapsOrderedSnoc(chunks: seq<Chunk>, c: Chunk, sizes: seq<Idx>)
    requires HeapsOrdered(chunks, sizes)
    requires forall k :: 0 <= k < |chunks| ==>
               chunks[k].heapBlockIndex < c.heapBlockIndex
               || (chunks[k].heapBlockIndex == c.heapBlockIndex
                   && chunks[k].heapBlockOffset + Payload(chunks, k, sizes) <= c.heapBlockOffset)
    ensures HeapsOrdered(chunks + [c], sizes)
  {
    var all := chunks + [c];
    forall k, l | 0 <= k < l < |all|
      ensures all[k].heapBlockIndex < all[l].heapBlockIndex
              || (all[k].heapBlockIndex == all[l].heapBlockIndex
                  && all[k].heapBlockOffset + Payload(all, k, sizes) <= all[l].heapBlockOffset)
    {
      assert all[k] == chunks[k] && all[..|chunks|] == chunks;
      PayloadPrefix(all, |chunks|, k, sizes);
      if l < |chunks| {
        assert all[l] == chunks[l];
      }
    }
  }

  /** The heap counterpart of RowsPackedSnoc, the chunk's payloads being
      those of rows `offset` .. `offset + c.count - 1`. */
  lemma HeapsPackedSnoc(first: seq<Block>, chunks: seq<Chunk>, before: seq<Block>, after: seq<Block>, c: Chunk,
                        sizes: seq<Idx>, offset: nat)
    requires HeapsInBlocks(chunks, before, sizes) && HeapsOrdered(chunks, sizes) && HeapsAfter(chunks, first)
    requires Extends(first, before) && offset == SumCounts(chunks) && offset + c.count <= |sizes|
    requires LastGrownBy(before, after, c.heapBlockOffset, Sum(sizes[offset..offset + c.count]))
    requires c.heapBlockIndex == |after| - 1
    ensures HeapsOrdered(chunks + [c], sizes) && HeapsAfter(chunks + [c], first)
    ensures Fill(after) == Fill(before) + Sum(sizes[offset..offset + c.count])
  {
    LastGrownFill(before, after, c.heapBlockOffset, Sum(sizes[offset..offset + c.count]));
    forall k | 0 <= k < |chunks|
      ensures chunks[k].heapBlockIndex < c.heapBlockIndex
              || (chunks[k].heapBlockIndex == c.heapBlockIndex
                  && chunks[k].heapBlockOffset + Payload(chunks, k, sizes) <= c.heapBlockOffset)
    {
      assert PayloadsInBlock(chunks[k], SumCounts(chunks[..k]), before, sizes);
    }
    HeapsOrderedSnoc(chunks, c, sizes);
    var all := chunks + [c];
    forall k | 0 <= k < |all| && all[k].heapBlockIndex < |first|
      ensures first[all[k].heapBlockIndex].size <= all[k].heapBlockOffset
    {
      if k < |chunks| {
        assert all[k] == chunks[k];
      }
    }
  }

  /** What Build keeps of where its chunks went: in order, in bytes not
      filled before it started, and with the fills grown by exactly the
      rows placed so far and their payloads. */
  predicate Packed(a: Allocator, sizes: seq<Idx>, st: Appended)
  {
    && RowsOrdered(st.chunks, a.layout.rowWidth) && RowsAfter(st.chunks, a.rowBlocks)
    && Fill(st.alloc.rowBlocks) == Fill(a.rowBlocks) + SumCounts(st.chunks) * a.layout.rowWidth
    && (a.layout.allConstant ==> st.alloc.heapBlocks == a.heapBlocks)
    && (!a.layout.allConstant ==>
          && SumCounts(st.chunks) <= |sizes| && HeapsOrdered(st.chunks, sizes) && HeapsAfter(st.chunks, a.heapBlocks)
          && Fill(st.alloc.heapBlocks) == Fill(a.heapBlocks) + Sum(sizes[..SumCounts(st.chunks)]))
  }

  /** Before the first chunk nothing is placed and nothing has grown. */
  lemma PackedStart(a: Allocator, sizes: seq<Idx>, st: Appended)
    requires st.alloc == a && st.chunks == []
    ensures Packed(a, sizes, st)
  {
    assert !a.layout.allConstant ==> sizes[..0] == [];
  }

  /** Placing one more chunk, as one chunk-building step describes it, keeps
      Build's chunks packed. */
  lemma PackedSnoc(a: Allocator, sizes: seq<Idx>, st: Appended, offset: nat, next: Step, st': Appended)
    requires Packed(a, sizes, st) && offset == SumCounts(st.chunks) && Grown(a, st.alloc)
    requires RowsInBlocks(st.chunks, st.alloc.rowBlocks, a.layout.rowWidth)
    requires !a.layout.allConstant ==> HeapsInBlocks(st.chunks, st.alloc.heapBlocks, sizes)
    requires st.alloc.layout == a.layout
    requires RowsAdvanced(st.alloc, next.alloc, next.chunk) && HeapAdvanced(st.alloc, next.alloc, next.chunk, sizes, offset)
    requires st'.chunks == st.chunks + [next.chunk]
    requires st'.alloc.rowBlocks == next.alloc.rowBlocks && st'.alloc.heapBlocks == next.alloc.heapBlocks
    ensures Packed(a, sizes, st')
  {
    var w, c := a.layout.rowWidth, next.chunk;
    SumCountsSnoc(st.chunks, c);
    RowsPackedSnoc(a.rowBlocks, st.chunks, st.alloc.rowBlocks, next.alloc.rowBlocks, c, w);
    MulAdd(offset, c.count, w);
    if !a.layout.allConstant {
      HeapsPackedSnoc(a.heapBlocks, st.chunks, st.alloc.heapBlocks, next.alloc.heapBlocks, c, sizes, offset);
      SumSplit(sizes, offset, offset + c.count);
    }
  }

  /** What the loop of Build uses of one successful chunk-building step. */
  lemma StepFacts(a: Allocator, cache: PinCache, sizes: seq<Idx>, offset: nat, count: nat)
    requires Valid(a) && CacheSound(cache, a) && offset < count
    requires !a.layout.allConstant ==> count <= |sizes|
    requires BuildChunk(a, sizes, offset, count).Success?
    ensures var s := BuildChunk(a, sizes, offset, count).value;
            && Valid(s.alloc) && Grown(a, s.alloc) && CacheSound(cache, s.alloc)
            && a.layout.rowWidth <= a.blockSize
            && 0 < s.chunk.count <= count - offset
            && RowsInBlock(s.chunk, s.alloc.rowBlocks, a.layout.rowWidth)
            && (a.layout.allConstant ==> s.alloc.heapBlocks == a.heapBlocks)
            && (!a.layout.allConstant ==> PayloadsInBlock(s.chunk, offset, s.alloc.heapBlocks, sizes))
  {
    var s := BuildChunk(a, sizes, offset, count).value;
    AdvancedExtends(a, s.alloc, s.chunk, sizes, offset);
    ResidentExtends(cache.rowHandles, a.rowBlocks, s.alloc.rowBlocks);
    ResidentExtends(cache.heapHandles, a.heapBlocks, s.alloc.heapBlocks);
  }

  /** The state Build keeps between chunks: `out.chunks` are the chunks
      placed so far, and the output vectors hold exactly their rows. */
  predicate Placed(a: Allocator, sizes: seq<Idx>, out: Appended)
  {
    && Valid(out.alloc) && CacheSound(out.cache, out.alloc) && Grown(a, out.alloc)
    && (forall k :: 0 <= k < |out.chunks| ==> out.chunks[k].count > 0)
    && RowsInBlocks(out.chunks, out.alloc.rowBlocks, a.layout.rowWidth)
    && out.rowLocations == RowAddresses(out.chunks, out.alloc.rowBlocks, a.layout.rowWidth)
    && (a.layout.allConstant ==> out.heapLocations == [] && out.writes == [])
    && (!a.layout.allConstant ==>
          && HeapsInBlocks(out.chunks, out.alloc.heapBlocks, sizes)
          && out.heapLocations == HeapAddresses(out.chunks, out.alloc.heapBlocks, sizes)
          && BackPointers(out.rowLocations, out.heapLocations, out.writes, a.layout.heapOffset))
  }

  /** Appending one placed chunk and its rows' addresses keeps the state placed. */
  lemma PlacedSnoc(a: Allocator, sizes: seq<Idx>, st: Appended, c: Chunk, alloc: Allocator, cache: PinCache,
                   rowRun: seq<Addr>, heapRun: seq<Addr>, writeRun: seq<PointerWrite>)
    requires Placed(a, sizes, st)
    requires Valid(alloc) && CacheSound(cache, alloc) && Grown(a, alloc) && Grown(st.alloc, alloc)
    requires c.count > 0 && RowsInBlock(c, alloc.rowBlocks, a.layout.rowWidth)
    requires rowRun == RowRun(Addr(alloc.rowBlocks[c.rowBlockIndex].handle, c.rowBlockOffset), a.layout.rowWidth, c.count)
    requires a.layout.allConstant ==> heapRun == [] && writeRun == []
    requires !a.layout.allConstant ==>
               && PayloadsInBlock(c, SumCounts(st.chunks), alloc.heapBlocks, sizes)
               && heapRun == HeapRun(Addr(alloc.heapBlocks[c.heapBlockIndex].handle, c.heapBlockOffset),
                                     sizes, SumCounts(st.chunks), c.count)
               && BackPointers(rowRun, heapRun, writeRun, a.layout.heapOffset)
    ensures Placed(a, sizes, Appended(alloc, cache, st.chunks + [c], st.rowLocations + rowRun,
                                      st.heapLocations + heapRun, st.writes + writeRun))
  {
    RowsStep(st.chunks, c, st.alloc.rowBlocks, alloc.rowBlocks, a.layout.rowWidth);
    if !a.layout.allConstant {
      HeapsStep(st.chunks, c, st.alloc.heapBlocks, alloc.heapBlocks, sizes);
      BackPointersConcat(st.rowLocations, st.heapLocations, st.writes, rowRun, heapRun, writeRun, a.layout.heapOffset);
    }
  }

  /** Chunk counts add up over a concatenation. */
  lemma {:induction false} SumCountsConcat(xs: seq<Chunk>, ys: seq<Chunk>)
    ensures SumCounts(xs + ys) == SumCounts(xs) + SumCounts(ys)
    decreases |ys|
  {
    if |ys| > 0 {
      var init, c := ys[..|ys| - 1], ys[|ys| - 1];
      assert ys == init + [c];
      assert xs + ys == (xs + init) + [c];
      SumCountsConcat(xs, init);
      SumCountsSnoc(xs + init, c);
      SumCountsSnoc(init, c);
    } else {
      assert xs + ys == xs;
    }
  }

  /** The chunks a run of Build lays down, and the allocator it leaves. */
  datatype Placement = Placement(chunks: seq<Chunk>, alloc: Allocator)

  /** `r` with `chunks` placed in front of its chunks. */
  function After(chunks: seq<Chunk>, r: Result<Placement, AllocError>): (r': Result<Placement, AllocError>)
    ensures r'.Failure? == r.Failure?
    ensures r.Failure? ==> r' == r
  {
    match r
    case Failure(e) => Failure(e)
    case Success(p) => Success(Placement(chunks + p.chunks, p.alloc))
  }

  lemma AfterNil(r: Result<Placement, AllocError>)
    ensures After([], r) == r
  {
    if r.Success? {
      assert [] + r.value.chunks == r.value.chunks;
    }
  }

  lemma AfterAfter(xs: seq<Chunk>, ys: seq<Chunk>, r: Result<Placement, AllocError>)
    ensures After(xs, After(ys, r)) == After(xs + ys, r)
  {
    if r.Success? {
      assert xs + (ys + r.value.chunks) == (xs + ys) + r.value.chunks;
    }
  }

  /** The placement Build's loop reaches from rows `offset` .. `count` - 1:
      BuildChunk again and again, each step starting from the allocator the
      last one left, until every row is placed or a step fails. */
  function Plan(a: Allocator, sizes: seq<Idx>, offset: nat, count: nat): (r: Result<Placement, AllocError>)
    requires a.layout.rowWidth > 0 && offset <= count
    requires !a.layout.allConstant ==> count <= |sizes|
    ensures r.Failure? ==> r.error == ZeroCountChunk
    ensures offset == count ==> r == Success(Placement([], a))
    decreases count - offset
  {
    if offset == count then Success(Placement([], a))
    else
      var step := BuildChunk(a, sizes, offset, count);
      if step.Failure? then Failure(step.error)
      else After([step.value.chunk], Plan(step.value.alloc, sizes, offset + step.value.chunk.count, count))
  }

  /** One step of the plan: a successful BuildChunk puts its chunk first. */
  lemma PlanStep(a: Allocator, sizes: seq<Idx>, offset: nat, count: nat)
    requires a.layout.rowWidth > 0 && offset < count
    requires !a.layout.allConstant ==> count <= |sizes|
    ensures BuildChunk(a, sizes, offset, count).Failure? ==>
              Plan(a, sizes, offset, count) == Failure(BuildChunk(a, sizes, offset, count).error)
    ensures BuildChunk(a, sizes, offset, count).Success? ==>
              var s := BuildChunk(a, sizes, offset, count).value;
              Plan(a, sizes, offset, count) == After([s.chunk], Plan(s.alloc, sizes, offset + s.chunk.count, count))
  {
    hide BuildChunk;
  }

  /** Under the invariant, the plan fails exactly when a row is wider than a
      block, and otherwise places every row, in chunks of at least one row,
      and leaves a valid allocator of the same layout and block size. */
  lemma {:induction false} PlanOutcome(a: Allocator, sizes: seq<Idx>, offset: nat, count: nat)
    requires a.layout.rowWidth > 0 && offset <= count
    requires !a.layout.allConstant ==> count <= |sizes|
    ensures Valid(a) ==>
              (Plan(a, sizes, offset, count).Failure? <==> offset < count && a.layout.rowWidth > a.blockSize)
    ensures Plan(a, sizes, offset, count).Success? ==>
              var p := Plan(a, sizes, offset, count).value;
              && SumCounts(p.chunks) == count - offset
              && (forall k :: 0 <= k < |p.chunks| ==> p.chunks[k].count > 0)
              && p.alloc.layout == a.layout && p.alloc.blockSize == a.blockSize
              && (Valid(a) ==> Valid(p.alloc))
    decreases count - offset
  {
    hide BuildChunk, Plan;
    if offset < count {
      PlanStep(a, sizes, offset, count);
      var step := BuildChunk(a, sizes, offset, count);
      if step.Success? {
        var s := step.value;
        PlanOutcome(s.alloc, sizes, offset + s.chunk.count, count);
        var rest := Plan(s.alloc, sizes, offset + s.chunk.count, count);
        if rest.Success? {
          SumCountsConcat([s.chunk], rest.value.chunks);
          assert SumCounts([s.chunk]) == SumCounts([]) + s.chunk.count;
          assert forall k :: 1 <= k < 1 + |rest.value.chunks| ==> ([s.chunk] + rest.value.chunks)[k] == rest.value.chunks[k - 1];
        }
      }
    }
  }

  /** Build's loop is on the plan: the chunks placed so far, followed by the
      plan from where they end, are the plan from the start. */
  predicate OnPlan(a: Allocator, sizes: seq<Idx>, count: nat, st: Appended)
  {
    && a.layout.rowWidth > 0 && (!a.layout.allConstant ==> count <= |sizes|)
    && st.alloc.layout == a.layout && SumCounts(st.chunks) <= count
    && Plan(a, sizes, 0, count) == After(st.chunks, Plan(st.alloc, sizes, SumCounts(st.chunks), count))
  }

  lemma OnPlanStart(a: Allocator, sizes: seq<Idx>, count: nat, st: Appended)
    requires a.layout.rowWidth > 0 && (!a.layout.allConstant ==> count <= |sizes|)
    requires st.alloc == a && st.chunks == []
    ensures OnPlan(a, sizes, count, st)
  {
    assert SumCounts(st.chunks) == 0;
    AfterNil(Plan(a, sizes, 0, count));
  }

  /** Placing the chunk of a successful step keeps Build's loop on the plan. */
  lemma OnPlanSnoc(a: Allocator, sizes: seq<Idx>, count: nat, st: Appended, next: Step, st': Appended)
    requires OnPlan(a, sizes, count, st) && SumCounts(st.chunks) < count
    requires BuildChunk(st.alloc, sizes, SumCounts(st.chunks), count) == Success(next)
    requires st'.alloc == next.alloc && st'.chunks == st.chunks + [next.chunk]
    ensures OnPlan(a, sizes, count, st')
  {
    hide BuildChunk, Plan;
    var offset := SumCounts(st.chunks);
    PlanStep(st.alloc, sizes, offset, count);
    SumCountsSnoc(st.chunks, next.chunk);
    AfterAfter(st.chunks, [next.chunk], Plan(next.alloc, sizes, offset + next.chunk.count, count));
  }

  /** One iteration of Build after a successful chunk-building step: pin the
      chunk's blocks, then fill in its rows' addresses and back-pointers. */
  method PlaceChunk(a: Allocator, sizes: seq<Idx>, count: nat, offset: nat, st: Appended, next: Step)
    returns (st': Appended)
    requires Valid(a) && Placed(a, sizes, st) && offset == SumCounts(st.chunks) && offset < count
    requires !a.layout.allConstant ==> count <= |sizes|
    requires st.alloc.layout == a.layout
    requires BuildChunk(st.alloc, sizes, offset, count) == Success(next)
    requires Packed(a, sizes, st)
    ensures Placed(a, sizes, st') && st'.chunks == st.chunks + [next.chunk]
    ensures Packed(a, sizes, st')
    ensures st'.alloc == next.alloc
    ensures SumCounts(st'.chunks) == offset + next.chunk.count <= count
    ensures next.chunk.count > 0 && a.layout.rowWidth <= a.blockSize
  {
    var w := a.layout.rowWidth;
    var c := next.chunk;
    StepFacts(st.alloc, st.cache, sizes, offset, count);
    GrownTransitive(a, st.alloc, next.alloc);

    var rp := GetRowPointer(next.alloc, st.cache, c);
    assert rp.Success?;
    var rowRun := RowLocations(rp.value.addr, w, c.count);
    var pc := rp.value.cache;
    var heapRun: seq<Addr> := [];
    var writeRun: seq<PointerWrite> := [];
    if !a.layout.allConstant {
      var hp := GetHeapPointer(next.alloc, pc, c);
      assert hp.Success?;
      heapRun := HeapLocations(hp.value.addr, sizes, offset, c.count);
      writeRun := HeapPointers(rowRun, heapRun, a.layout.heapOffset);
      pc := hp.value.cache;
    }
    PlacedSnoc(a, sizes, st, c, next.alloc, pc, rowRun, heapRun, writeRun);
    SumCountsSnoc(st.chunks, c);
    st' := Appended(next.alloc, pc, st.chunks + [c], st.rowLocations + rowRun,
                    st.heapLocations + heapRun, st.writes + writeRun);
    PackedSnoc(a, sizes, st, offset, next, st');
  }

  /** One round of Build's loop: build the next chunk for rows `offset` ..
      `count` - 1 and place it, or fail when a row does not fit in a block. */
  method Advance(a: Allocator, sizes: seq<Idx>, count: nat, offset: nat, st: Appended)
    returns (r: Result<Appended, AllocError>)
    requires Valid(a) && Placed(a, sizes, st) && offset == SumCounts(st.chunks) && offset < count
    requires !a.layout.allConstant ==> count <= |sizes|
    requires st.alloc.layout == a.layout && st.alloc.blockSize == a.blockSize
    requires Packed(a, sizes, st) && OnPlan(a, sizes, count, st)
    ensures r.Failure? <==> a.layout.rowWidth > a.blockSize
    ensures r.Failure? ==> r.error == ZeroCountChunk
    ensures r.Failure? ==>
              BuildChunk(st.alloc, sizes, offset, count) == Failure(r.error)
              && Plan(a, sizes, 0, count) == Failure(r.error)
    ensures r.Success? ==>
              && BuildChunk(st.alloc, sizes, offset, count).Success?
              && r.value.chunks == st.chunks + [BuildChunk(st.alloc, sizes, offset, count).value.chunk]
              && r.value.alloc == BuildChunk(st.alloc, sizes, offset, count).value.alloc
    ensures r.Success? ==>
              && Placed(a, sizes, r.value) && r.value.alloc.layout == a.layout && r.value.alloc.blockSize == a.blockSize
              && offset < SumCounts(r.value.chunks) <= count && Packed(a, sizes, r.value)
              && OnPlan(a, sizes, count, r.value)
  {
    var step := BuildChunk(st.alloc, sizes, offset, count);
    if step.Failure? {
      hide BuildChunk, Plan;
      PlanStep(st.alloc, sizes, offset, count);
      return Failure(step.error);
    }
    var st' := PlaceChunk(a, sizes, count, offset, st, step.value);
    OnPlanSnoc(a, sizes, count, st, step.value, st');
    r := Success(st');
  }

  /** Build: place rows 0 .. `count` - 1 chunk by chunk. The new chunks are
      appended to the segment, their counts add up to `count`, every row gets
      the address of its slot in a row block and, with payloads, of its
      payload in a heap block, and every row's back-pointer is written. The
      chunks follow one another in bytes not filled before, no two rows share
      a slot and no two payloads overlap, and the blocks gain exactly the
      rows' width and their payloads' bytes. */
  method Build(a: Allocator, cache: PinCache, sizes: seq<Idx>, count: nat, segment: seq<Chunk>)
    returns (r: Result<Appended, AllocError>)
    requires Valid(a) && CacheSound(cache, a)
    requires !a.layout.allConstant ==> count <= |sizes|
    ensures r.Failure? <==> count > 0 && a.layout.rowWidth > a.blockSize
    ensures r.Failure? ==> r.error == ZeroCountChunk
    ensures count == 0 ==> r == Success(Appended(a, cache, segment, [], [], []))
    ensures r.Success? ==>
              var out := r.value;
              && |segment| <= |out.chunks| && out.chunks[..|segment|] == segment
              && SumCounts(out.chunks[|segment|..]) == count
              && (forall k :: |segment| <= k < |out.chunks| ==> out.chunks[k].count > 0)
              && Valid(out.alloc) && Grown(a, out.alloc) && CacheSound(out.cache, out.alloc)
    ensures r.Success? ==>
              var out := r.value;
              && RowsInBlocks(out.chunks[|segment|..], out.alloc.rowBlocks, a.layout.rowWidth)
              && out.rowLocations == RowAddresses(out.chunks[|segment|..], out.alloc.rowBlocks, a.layout.rowWidth)
    ensures r.Success? && a.layout.allConstant ==> r.value.heapLocations == [] && r.value.writes == []
    ensures r.Success? && !a.layout.allConstant ==>
              var out := r.value;
              && HeapsInBlocks(out.chunks[|segment|..], out.alloc.heapBlocks, sizes)
              && out.heapLocations == HeapAddresses(out.chunks[|segment|..], out.alloc.heapBlocks, sizes)
              && BackPointers(out.rowLocations, out.heapLocations, out.writes, a.layout.heapOffset)
    ensures r.Success? ==>
              var out := r.value;
              && RowsOrdered(out.chunks[|segment|..], a.layout.rowWidth)
              && RowsAfter(out.chunks[|segment|..], a.rowBlocks)
              && SlotsApart(out.rowLocations, a.layout.rowWidth)
              && Fill(out.alloc.rowBlocks) == Fill(a.rowBlocks) + count * a.layout.rowWidth
    ensures r.Success? && a.layout.allConstant ==> r.value.alloc.heapBlocks == a.heapBlocks
    ensures r.Success? && !a.layout.allConstant ==>
              var out := r.value;
              && HeapsOrdered(out.chunks[|segment|..], sizes)
              && HeapsAfter(out.chunks[|segment|..], a.heapBlocks)
              && PayloadsApart(out.heapLocations, sizes, 0)
              && Fill(out.alloc.heapBlocks) == Fill(a.heapBlocks) + Sum(sizes[..count])
    ensures r.Success? ==> Plan(a, sizes, 0, count) == Success(Placement(r.value.chunks[|segment|..], r.value.alloc))
    ensures r.Failure? ==> Plan(a, sizes, 0, count) == Failure(r.error)
  {
    var placed := PlaceAll(a, cache, sizes, count);
    if placed.Failure? {
      return Failure(placed.error);
    }
    var st := placed.value;
    var out := st.(chunks := segment + st.chunks);
    Finish(a, sizes, count, segment, st, out);
    if count == 0 {
      assert out.chunks == segment;
    }
    r := Success(out);
  }

  /** The loop of Build: place rows 0 .. `count` - 1 chunk by chunk, starting
      from no chunks at all. */
  method PlaceAll(a: Allocator, cache: PinCache, sizes: seq<Idx>, count: nat)
    returns (r: Result<Appended, AllocError>)
    requires Valid(a) && CacheSound(cache, a)
    requires !a.layout.allConstant ==> count <= |sizes|
    ensures r.Failure? <==> count > 0 && a.layout.rowWidth > a.blockSize
    ensures r.Failure? ==> r.error == ZeroCountChunk
    ensures count == 0 ==> r == Success(Appended(a, cache, [], [], [], []))
    ensures r.Success? ==> Placed(a, sizes, r.value) && Packed(a, sizes, r.value) && SumCounts(r.value.chunks) == count
    ensures r.Success? ==> Plan(a, sizes, 0, count) == Success(Placement(r.value.chunks, r.value.alloc))
    ensures r.Failure? ==> Plan(a, sizes, 0, count) == Failure(r.error)
  {
    hide BuildChunk, Plan;
    var st := Appended(a, cache, [], [], [], []);
    var offset := 0;
    PackedStart(a, sizes, st);
    OnPlanStart(a, sizes, count, st);
    while offset != count
      invariant offset <= count && offset == SumCounts(st.chunks)
      invariant offset == 0 ==> st == Appended(a, cache, [], [], [], [])
      invariant offset > 0 ==> a.layout.rowWidth <= a.blockSize
      invariant Placed(a, sizes, st) && st.alloc.layout == a.layout && st.alloc.blockSize == a.blockSize
      invariant Packed(a, sizes, st) && OnPlan(a, sizes, count, st)
      decreases count - offset
    {
      var next := Advance(a, sizes, count, offset, st);
      if next.Failure? {
        return Failure(next.error);
      }
      st := next.value;
      offset := SumCounts(st.chunks);
    }
    PlanDone(a, sizes, count, st);
    r := Success(st);
  }

  /** Once the chunks on the plan cover every row, they are the whole plan. */
  lemma PlanDone(a: Allocator, sizes: seq<Idx>, count: nat, st: Appended)
    requires OnPlan(a, sizes, count, st) && SumCounts(st.chunks) == count
    ensures Plan(a, sizes, 0, count) == Success(Placement(st.chunks, st.alloc))
  {
    hide BuildChunk;
    assert st.chunks + [] == st.chunks;
  }

  /** What Build promises once its loop has placed `count` rows, with the
      new chunks appended to the segment. */
  lemma Finish(a: Allocator, sizes: seq<Idx>, count: nat, segment: seq<Chunk>, st: Appended, out: Appended)
    requires Valid(a) && Placed(a, sizes, st) && Packed(a, sizes, st) && SumCounts(st.chunks) == count
    requires out == st.(chunks := segment + st.chunks)
    ensures |segment| <= |out.chunks| && out.chunks[..|segment|] == segment && out.chunks[|segment|..] == st.chunks
            && SumCounts(out.chunks[|segment|..]) == count
            && (forall k :: |segment| <= k < |out.chunks| ==> out.chunks[k].count > 0)
            && Valid(out.alloc) && Grown(a, out.alloc) && CacheSound(out.cache, out.alloc)
    ensures && RowsInBlocks(out.chunks[|segment|..], out.alloc.rowBlocks, a.layout.rowWidth)
            && out.rowLocations == RowAddresses(out.chunks[|segment|..], out.alloc.rowBlocks, a.layout.rowWidth)
    ensures a.layout.allConstant ==> out.heapLocations == [] && out.writes == []
    ensures !a.layout.allConstant ==>
              && HeapsInBlocks(out.chunks[|segment|..], out.alloc.heapBlocks, sizes)
              && out.heapLocations == HeapAddresses(out.chunks[|segment|..], out.alloc.heapBlocks, sizes)
              && BackPointers(out.rowLocations, out.heapLocations, out.writes, a.layout.heapOffset)
    ensures && RowsOrdered(out.chunks[|segment|..], a.layout.rowWidth)
            && RowsAfter(out.chunks[|segment|..], a.rowBlocks)
            && SlotsApart(out.rowLocations, a.layout.rowWidth)
            && Fill(out.alloc.rowBlocks) == Fill(a.rowBlocks) + count * a.layout.rowWidth
    ensures a.layout.allConstant ==> out.alloc.heapBlocks == a.heapBlocks
    ensures !a.layout.allConstant ==>
              && HeapsOrdered(out.chunks[|segment|..], sizes)
              && HeapsAfter(out.chunks[|segment|..], a.heapBlocks)
              && PayloadsApart(out.heapLocations, sizes, 0)
              && Fill(out.alloc.heapBlocks) == Fill(a.heapBlocks) + Sum(sizes[..count])
  {
    RowAddressesApart(st.chunks, st.alloc.rowBlocks, a.layout.rowWidth);
    if !a.layout.allConstant {
      HeapAddressesApart(st.chunks, st.alloc.heapBlocks, sizes);
    }
    assert out.chunks[..|segment|] == segment && out.chunks[|segment|..] == st.chunks;
  }
}

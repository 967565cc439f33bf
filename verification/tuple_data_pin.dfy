/** Pinning blocks through a per-operation cache of resident handles, and
    turning a chunk descriptor into the address of its first row and of its
    first row's heap payload. */
module TupleDataPins {
  import opened Results
  import opened TupleDataBlocks
  import opened TupleDataAllocator

  /** A resident handle: the pool handle of the pinned block, and the serial
      number of the pin call that produced it. */
  datatype Handle = Handle(block: nat, serial: nat)

  /** TupleDataManagementState: resident handles by block index, one map for
      row blocks and one for heap blocks, and the number of pin calls made
      through this state so far. */
  datatype PinCache = PinCache(rowHandles: map<nat, Handle>, heapHandles: map<nat, Handle>, pins: nat)

  /** A byte address: the pool handle of the block's buffer and an offset into it. */
  datatype Addr = Addr(block: nat, offset: nat)

  datatype Pointer = Pointer(addr: Addr, cache: PinCache)

  const EmptyCache := PinCache(map[], map[], 0)

  /** The pool's pin call, the `pins`-th of this state: a handle to the
      block's buffer, and one more pin call counted. */
  function Pin(pins: nat, b: Block): (r: (Handle, nat))
    ensures r.0.block == b.handle
    ensures r.1 == pins + 1
  {
    (Handle(b.handle, pins), pins + 1)
  }

  /** Every cached handle is for the block its index names. */
  predicate Resident(handles: map<nat, Handle>, blocks: seq<Block>)
  {
    forall i :: i in handles ==> i < |blocks| && handles[i].block == blocks[i].handle
  }

  predicate CacheSound(cache: PinCache, a: Allocator)
  {
    Resident(cache.rowHandles, a.rowBlocks) && Resident(cache.heapHandles, a.heapBlocks)
  }

  lemma ResidentExtends(handles: map<nat, Handle>, before: seq<Block>, after: seq<Block>)
    requires Extends(before, after)
    ensures Resident(handles, before) ==> Resident(handles, after)
  {
  }

  /** PinRowBlock: a cached index is served without a pin call; an uncached
      one costs exactly one pin call and is cached afterwards. */
  function PinRowBlock(a: Allocator, cache: PinCache, index: nat): (r: Result<PinCache, AllocError>)
    ensures index in cache.rowHandles ==> r == Success(cache)
    ensures index !in cache.rowHandles ==> (r.Success? <==> index < |a.rowBlocks|)
    ensures r.Failure? ==> r.error == BlockIndexOutOfRange
    ensures r.Success? ==>
              && r.value.pins == cache.pins + (if index in cache.rowHandles then 0 else 1)
              && r.value.heapHandles == cache.heapHandles
              && cache.rowHandles.Keys + {index} == r.value.rowHandles.Keys
              && (forall i :: i in cache.rowHandles ==> r.value.rowHandles[i] == cache.rowHandles[i])
    ensures r.Success? && CacheSound(cache, a) ==> CacheSound(r.value, a) && index < |a.rowBlocks|
  {
    if index in cache.rowHandles then Success(cache)
    else if index >= |a.rowBlocks| then Failure(BlockIndexOutOfRange)
    else
      var (h, pins) := Pin(cache.pins, a.rowBlocks[index]);
      Success(cache.(rowHandles := cache.rowHandles[index := h], pins := pins))
  }

  /** PinHeapBlock, storing the handle in the heap map it consults: the same
      memo as PinRowBlock, over the heap blocks. */
  function PinHeapBlock(a: Allocator, cache: PinCache, index: nat): (r: Result<PinCache, AllocError>)
    ensures index in cache.heapHandles ==> r == Success(cache)
    ensures index !in cache.heapHandles ==> (r.Success? <==> index < |a.heapBlocks|)
    ensures r.Failure? ==> r.error == BlockIndexOutOfRange
    ensures r.Success? ==>
              && r.value.pins == cache.pins + (if index in cache.heapHandles then 0 else 1)
              && r.value.rowHandles == cache.rowHandles
              && cache.heapHandles.Keys + {index} == r.value.heapHandles.Keys
              && (forall i :: i in cache.heapHandles ==> r.value.heapHandles[i] == cache.heapHandles[i])
    ensures r.Success? && CacheSound(cache, a) ==> CacheSound(r.value, a) && index < |a.heapBlocks|
  {
    if index in cache.heapHandles then Success(cache)
    else if index >= |a.heapBlocks| then Failure(BlockIndexOutOfRange)
    else
      var (h, pins) := Pin(cache.pins, a.heapBlocks[index]);
      Success(cache.(heapHandles := cache.heapHandles[index := h], pins := pins))
  }

  /** Pinning the same row block twice costs one pin call in all and yields
      the same cache as pinning it once. */
  lemma PinRowBlockIdempotent(a: Allocator, cache: PinCache, index: nat)
    requires PinRowBlock(a, cache, index).Success?
    ensures var p := PinRowBlock(a, cache, index).value;
            PinRowBlock(a, p, index) == Success(p) && p.pins <= cache.pins + 1
  {
  }

  lemma PinHeapBlockIdempotent(a: Allocator, cache: PinCache, index: nat)
    requires PinHeapBlock(a, cache, index).Success?
    ensures var p := PinHeapBlock(a, cache, index).value;
            PinHeapBlock(a, p, index) == Success(p) && p.pins <= cache.pins + 1
  {
  }

  /** GetRowPointer: the chunk's first row lies `rowBlockOffset` bytes into
      the buffer of the row block the chunk names. */
  function GetRowPointer(a: Allocator, cache: PinCache, c: Chunk): (r: Result<Pointer, AllocError>)
    ensures CacheSound(cache, a) ==> (r.Success? <==> c.rowBlockIndex < |a.rowBlocks|)
    ensures r.Failure? ==> r.error == BlockIndexOutOfRange
    ensures r.Success? && CacheSound(cache, a) ==>
              && r.value.addr == Addr(a.rowBlocks[c.rowBlockIndex].handle, c.rowBlockOffset)
              && CacheSound(r.value.cache, a)
              && r.value.cache.heapHandles == cache.heapHandles
  {
    var p :- PinRowBlock(a, cache, c.rowBlockIndex);
    Success(Pointer(Addr(p.rowHandles[c.rowBlockIndex].block, c.rowBlockOffset), p))
  }

  /** GetHeapPointer: the chunk's first payload lies `heapBlockOffset` bytes
      into the buffer of the heap block the chunk names. */
  function GetHeapPointer(a: Allocator, cache: PinCache, c: Chunk): (r: Result<Pointer, AllocError>)
    ensures CacheSound(cache, a) ==> (r.Success? <==> c.heapBlockIndex < |a.heapBlocks|)
    ensures r.Failure? ==> r.error == BlockIndexOutOfRange
    ensures r.Success? && CacheSound(cache, a) ==>
              && r.value.addr == Addr(a.heapBlocks[c.heapBlockIndex].handle, c.heapBlockOffset)
              && CacheSound(r.value.cache, a)
              && r.value.cache.rowHandles == cache.rowHandles
  {
    var p :- PinHeapBlock(a, cache, c.heapBlockIndex);
    Success(Pointer(Addr(p.heapHandles[c.heapBlockIndex].block, c.heapBlockOffset), p))
  }
}

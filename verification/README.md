# Tuple data allocator and radix keys

A Dafny model of two pieces of DuckDB's row storage.

**The tuple data allocator** (`TupleDataAllocator`) places rows into two
append-only lists of fixed-capacity blocks:
- row blocks hold the fixed-width part of each row;
- heap blocks hold the variable-size payloads of layouts that have any.

One `BuildChunk` step works as follows:
- It opens a row block when none has room for one row.
- It takes as many rows as the block has room for.
- For a layout with payloads, it opens a heap block when the first payload does not fit. That block is sized to hold the payload even if it exceeds the standard block size.
- It cuts the rows taken down to those whose payloads fit.
- It marks the bytes as filled and returns a chunk descriptor.

`Build` repeats the step until all rows are placed. For every row it computes:
- the address of its slot in a row block;
- the address of its payload in a heap block;
- the back-pointer written into the row.

`PinRowBlock` and `PinHeapBlock` memoise pinned buffer handles per append operation.

**The radix key encoder** (`Radix`) turns booleans, signed and unsigned integers of 1 to 8 bytes, hugeints, uhugeints, intervals and string prefixes into byte strings. The order of those strings under memcmp is the order of the values. Decoding exists only for int64; every other decoder raises an error.

The modules follow the source:
- `TupleDataBlocks`: blocks, the buffer pool, and idx_t arithmetic.
- `TupleDataAllocator`: the allocator state and the chunk-building step.
- `TupleDataPins`: the pin cache and pointer lookup.
- `TupleDataBuild`: the Build loop and per-row addresses.
- `TupleDataAsWritten`: the steps exactly as the source writes them, next to the corrected ones (see Findings).
- `TupleDataPlanExamples`: two runs of Build worked out chunk by chunk.
- `ByteOrder`: big-endian encoding and memcmp order.
- `Radix`: the key encoder.
- `Results`: the result type for error outcomes.

Modelling choices:
- Addresses are pairs of a block's pool handle and a byte offset.
- The buffer manager is a supply of fresh handles. Pin calls are counted in the pin cache of one append operation.
- The standard block size is a field of the allocator.
- A failed `D_ASSERT`, an index past a list's end and a read of an unfilled slot are `Failure` outcomes.

Where the allocator's code departs from what it evidently intends, the corrected behaviour is what `Build` and the pointer functions use. The code as written is modelled beside it, with a concrete input for each divergence (see Findings).

## Model

| member | source | states |
|---|---|---|
| TupleDataBlocks.NewBlock | src/common/types/row/tuple_data_allocator.cpp:9-11 | a new block has exactly the requested capacity, nothing filled, all of it free, and a handle the pool had not handed out before |
| TupleDataBlocks.RemainingRows | src/common/types/row/tuple_data_allocator.cpp:81 | the number of whole rows of the given width that fit in the block's free bytes: that many fit, one more does not |
| TupleDataBlocks.LastGrownExtends | src/common/types/row/tuple_data_allocator.cpp:111-115 | growing only the last block of a list keeps every earlier block with its buffer and capacity, filled no less |
| TupleDataBlocks.LastGrownFill | src/common/types/row/tuple_data_allocator.cpp:111-115 | growing the last block by some bytes, whether it was just opened or not, adds exactly those bytes to the list's total fill |
| TupleDataAllocator.NewAllocator | src/common/types/row/tuple_data_allocator.cpp:26-28 | a fresh allocator has no blocks and satisfies the allocator invariant |
| TupleDataAllocator.FreshBlockKeepsValid | src/common/types/row/tuple_data_allocator.cpp:78-91 | appending an empty block whose buffer the pool handed out after every existing one keeps the invariant, including that no two blocks share a buffer; a row block must have the standard size, and a heap block needs a layout with payloads |
| TupleDataAllocator.EnsureRowBlock | src/common/types/row/tuple_data_allocator.cpp:77-80 | a standard-size empty block is appended exactly when the list is empty or the last block lacks room for one row; no earlier block changes; afterwards the last block has room for a row whenever a row fits in a standard block; the invariant is kept |
| TupleDataAllocator.EnsureHeapBlock | src/common/types/row/tuple_data_allocator.cpp:88-92 | a block is appended exactly when the list is empty or the last block cannot take the first payload, with capacity max(standard size, that payload); afterwards the last heap block can always take the first payload; the invariant is kept |
| TupleDataAllocator.HeapFit | src/common/types/row/tuple_data_allocator.cpp:96-105 | the number of payloads taken is the longest run whose total fits the free heap bytes: those fit, one more would not |
| TupleDataAllocator.RowRoom | src/common/types/row/tuple_data_allocator.cpp:77-81 | after the row-block step there is room for at least one row exactly when a row fits in a standard block |
| TupleDataAllocator.HeapFitPositive | src/common/types/row/tuple_data_allocator.cpp:89-105 | when the first payload fits, at least one row is taken |
| TupleDataAllocator.RowsFit | src/common/types/row/tuple_data_allocator.cpp:115 | filling no more rows than the block has room for keeps the block within its capacity |
| TupleDataAllocator.ConstantExhausted | src/common/types/row/tuple_data_allocator.cpp:81 | without payloads, a chunk shorter than the remaining rows leaves no room in its row block for one more row |
| TupleDataAllocator.VariableExhausted | src/common/types/row/tuple_data_allocator.cpp:81-105 | with payloads, a chunk shorter than the remaining rows stopped because its row block is full or the next payload does not fit in its heap block |
| TupleDataAllocator.ConstantChunk | src/common/types/row/tuple_data_allocator.cpp:75-119 | without payloads: the step fails only when a row does not fit in a standard block; otherwise it takes between 1 and the remaining rows, leaves the heap alone with zero heap fields, grows only the last row block by count times row width, and keeps the invariant |
| TupleDataAllocator.VariableChunk | src/common/types/row/tuple_data_allocator.cpp:75-120 | with payloads: the step succeeds whenever a row fits in a standard block and takes between 1 and the remaining rows; it grows the last heap block by exactly those rows' payloads from the recorded offset; the descriptor names the last blocks; it is maximal and keeps the invariant |
| TupleDataAllocator.BuildChunk | src/common/types/row/tuple_data_allocator.cpp:75-120 | one step of either kind: a non-empty chunk within the remaining rows; only the last block of each list changes, by exactly the chunk; the chunk names the last blocks and where its rows and payloads start; block fills stay within capacity |
| TupleDataPins.Pin | src/common/types/row/tuple_data_allocator.cpp:129 | a pin call yields a handle to the given block's buffer and costs exactly one pin |
| TupleDataPins.PinRowBlock | src/common/types/row/tuple_data_allocator.cpp:122-131 | a cached index costs no pin call and changes nothing; an uncached one costs exactly one and is cached afterwards; the heap map and earlier entries are untouched; a sound cache stays sound |
| TupleDataPins.PinHeapBlock | src/common/types/row/tuple_data_allocator.cpp:133-142 | the same memo over heap blocks, stored in the heap map the lookup consults; the row map is untouched |
| TupleDataPins.PinRowBlockIdempotent | src/common/types/row/tuple_data_allocator.cpp:122-131 | pinning the same row block twice yields the same cache as once and at most one pin call |
| TupleDataPins.PinHeapBlockIdempotent | src/common/types/row/tuple_data_allocator.cpp:133-142 | pinning the same heap block twice yields the same cache as once and at most one pin call |
| TupleDataPins.GetRowPointer | src/common/types/row/tuple_data_allocator.cpp:65-68 | with a sound cache, the lookup succeeds exactly for an existing row block; the address is that block's buffer at the chunk's row offset; the cache stays sound |
| TupleDataPins.GetHeapPointer | src/common/types/row/tuple_data_allocator.cpp:70-73 | with a sound cache, the lookup succeeds exactly for an existing heap block; the address is that block's buffer at the chunk's heap offset; the cache stays sound |
| TupleDataBuild.RowLocations | src/common/types/row/tuple_data_allocator.cpp:40-44 | the chunk's i-th row is i row widths after the chunk's base, in the same block |
| TupleDataBuild.HeapLocations | src/common/types/row/tuple_data_allocator.cpp:47-53 | the first payload is at the chunk's heap base; each later one follows the previous one by the previous row's payload size; equivalently, each row's payload starts after all earlier rows' payloads |
| TupleDataBuild.HeapPointers | src/common/types/row/tuple_data_allocator.cpp:55-58 | each row receives the address of its own payload, at the heap offset within the row |
| TupleDataBuild.RowAddressesStable | src/common/types/row/tuple_data_allocator.cpp:33-35 | growing the block lists does not move any row already placed |
| TupleDataBuild.HeapAddressesStable | src/common/types/row/tuple_data_allocator.cpp:33-35 | growing the block lists does not move any payload already placed |
| TupleDataBuild.RowAddressesApart | src/common/types/row/tuple_data_allocator.cpp:40-44 | chunks that follow one another within each block, in blocks with distinct buffers, give any two rows slots that do not overlap |
| TupleDataBuild.HeapAddressesApart | src/common/types/row/tuple_data_allocator.cpp:47-53 | chunks whose payload runs follow one another within each heap block, in blocks with distinct buffers, give any two payloads bytes that do not overlap |
| TupleDataBuild.RowsPackedSnoc | src/common/types/row/tuple_data_allocator.cpp:78-115 | a chunk that starts where its row block's fill ended, or in a new block, keeps the chunks in order and in bytes not filled before, and adds exactly its rows' width to the total row fill |
| TupleDataBuild.HeapsPackedSnoc | src/common/types/row/tuple_data_allocator.cpp:89-111 | a chunk whose payloads start where its heap block's fill ended, or in a new block, keeps the payload runs in order and in bytes not filled before, and adds exactly its payload bytes to the total heap fill |
| TupleDataBuild.PackedSnoc | src/common/types/row/tuple_data_allocator.cpp:33-61 | after one more chunk, the chunks are still in order in fresh bytes, and the fills have grown by exactly the rows placed so far and their payloads |
| TupleDataBuild.PlaceChunk | src/common/types/row/tuple_data_allocator.cpp:35-61 | one loop iteration appends exactly the new chunk and advances the row count by its count; the placement invariant is kept: rows and payloads lie in filled parts of existing blocks, addresses match the chunk list, and back-pointers pair rows with payloads; the chunks stay in order in fresh bytes with exact fills |
| TupleDataBuild.PlanOutcome | src/common/types/row/tuple_data_allocator.cpp:33-61 | from a valid allocator, the run of BuildChunk steps over the remaining rows fails exactly when rows remain and a row cannot fit in a standard block; otherwise its chunks are non-empty, their counts sum to the rows remaining, and the final allocator is valid |
| TupleDataBuild.Advance | src/common/types/row/tuple_data_allocator.cpp:33-61 | one round of the loop takes exactly the next BuildChunk step from the current allocator: on failure the round and the whole run of steps fail with that step's error; otherwise the round appends that step's chunk and adopts its allocator, places at least one more row, never past the row count, and keeps both loop invariants and the loop's place in the run |
| TupleDataBuild.PlaceAll | src/common/types/row/tuple_data_allocator.cpp:30-63 | the loop fails exactly when there are rows and a row cannot fit in a standard block; with no rows nothing changes; otherwise its chunks hold exactly the row count, are placed and are in order in fresh bytes; its chunks and final allocator are exactly those of the run of BuildChunk steps, and its failure is that run's |
| TupleDataBuild.Finish | src/common/types/row/tuple_data_allocator.cpp:30-63 | once the loop is done, the new chunks follow the segment's earlier ones, no two rows share a slot, no two payloads overlap, and the fills have grown by exactly the rows' width and their payload bytes |
| TupleDataBuild.Build | src/common/types/row/tuple_data_allocator.cpp:30-63 | the new chunks and the final allocator are exactly those of the run of BuildChunk steps from the given allocator, and a failure is that run's; it fails only when a row cannot fit in a standard block; with no rows nothing changes; otherwise the earlier chunks are kept, the new chunks are non-empty and their counts sum to the row count; every row's address and payload address is its slot in the chunk's blocks; back-pointers are written and nothing placed before moves; the new chunks lie in order in bytes not filled before, no two rows share a slot, no two payloads overlap, the row fill grows by exactly the row count times the row width and the heap fill by exactly the rows' payload bytes |
| TupleDataPlanExamples.TenFixedRows | src/common/types/row/tuple_data_allocator.cpp:33-61 | ten 16-byte rows without payloads in 64-byte blocks become chunks of 4, 4 and 2 rows in blocks 0, 1 and 2, each starting at offset 0, leaving the blocks filled with 64, 64 and 32 bytes |
| TupleDataPlanExamples.ThreePayloads | src/common/types/row/tuple_data_allocator.cpp:33-61 | three one-byte rows with 10-byte payloads in 25-byte blocks become a chunk of 2 rows and one of 1 row: both in row block 0, the second starting at offset 2; the first chunk's payloads start heap block 0 and the second's start heap block 1, which the third payload opened; the heap blocks end 20 and 10 bytes full |
| TupleDataAsWritten.Scan | src/common/types/row/tuple_data_allocator.cpp:96-105 | the payload scan as written either runs to the last row with `next` unchanged and the total of all payloads, or breaks at an absolute row index whose payload would overflow the free heap bytes; the total never exceeds them |
| TupleDataAsWritten.ConstantChunkAsWritten | src/common/types/row/tuple_data_allocator.cpp:75-119 | without payloads the step as written leaves the heap alone and returns a non-empty chunk with the as-written descriptor |
| TupleDataAsWritten.VariableChunkAsWritten | src/common/types/row/tuple_data_allocator.cpp:75-120 | with payloads the step as written either reads an unfilled row size, trips the count assertion, or returns a non-empty chunk with the as-written descriptor |
| TupleDataAsWritten.BuildChunkAsWritten | src/common/types/row/tuple_data_allocator.cpp:75-120 | the step as written: its successes carry the as-written descriptor; its failures are the count assertion or, with payloads, a read of an unfilled row size |
| TupleDataAsWritten.AsWrittenAgreesWithoutPayloads | src/common/types/row/tuple_data_allocator.cpp:77-119 | without payloads the code as written places exactly the corrected rows; its descriptor is one block index too high and offset by the chunk's row bytes |
| TupleDataAsWritten.AsWrittenWhenAllFit | src/common/types/row/tuple_data_allocator.cpp:75-120 | with payloads, when the row block takes all remaining rows and the heap block all their payloads, the code as written fills both blocks exactly as the corrected step's FillBlocks does and keeps the invariant; its descriptor is FillBlocks' with both block indices one higher and the row offset moved past the rows placed |
| TupleDataAsWritten.AsWrittenDescriptorOutOfRange | src/common/types/row/tuple_data_allocator.cpp:118-119 | any chunk the code as written returns names a row block one past the end, so the row pointer lookup on it fails |
| TupleDataAsWritten.ReadPastCountExample | src/common/types/row/tuple_data_allocator.cpp:98-108 | five rows of 10 payload bytes with one-byte rows and 25-byte blocks: the code as written reads the size of a sixth row on its second step, where the corrected step places two more rows |
| TupleDataAsWritten.HeapOvercountExample | src/common/types/row/tuple_data_allocator.cpp:98-111 | one row per row block and two 1-byte payloads: the code as written places one row but marks both payloads filled, where the corrected step marks one |
| TupleDataAsWritten.RowOverfillExample | src/common/types/row/tuple_data_allocator.cpp:98-115 | one row per row block and 10-byte payloads: the code as written puts two rows, 50 bytes, into a 25-byte row block, where the corrected step keeps the invariant |
| TupleDataAsWritten.PinHeapBlockAsWritten | src/common/types/row/tuple_data_allocator.cpp:133-142 | the heap pin as written looks up the heap map but stores the heap block's handle in the row map, and leaves the heap map unchanged |
| TupleDataAsWritten.GetHeapPointerAsWritten | src/common/types/row/tuple_data_allocator.cpp:70-73 | the heap pointer lookup on the as-written pin fails whenever the heap map lacks the index beforehand |
| TupleDataAsWritten.HeapPinExample | src/common/types/row/tuple_data_allocator.cpp:133-142 | on an empty cache, the heap pin as written repeats its pin call on every use and its pointer lookup fails; the next row pointer for that index lands in the heap block's buffer; the corrected pin caches once and keeps the cache sound |
| TupleDataAsWritten.HeapLocationsAsWritten | src/common/types/row/tuple_data_allocator.cpp:47-53 | with row sizes read from the address buffer itself, the i-th payload address is the first one times 2^i, modulo 2^64 |
| TupleDataAsWritten.HeapLocationsExample | src/common/types/row/tuple_data_allocator.cpp:47-53 | two 8-byte payloads starting at 4096: as written the second lands at 8192, where laying them end to end puts it at 4104 |
| ByteOrder.BigEndianOrder | src/include/duckdb/common/radix.hpp:160-173 | for numbers of the same width, numeric order is the memcmp order of their big-endian bytes |
| Radix.FlipSign | src/include/duckdb/common/radix.hpp:53-55 | flipping keeps the low seven bits of the byte and inverts the top bit |
| Radix.FlipSignInvolution | src/include/duckdb/common/radix.hpp:53-55 | flipping a byte twice gives it back |
| Radix.FlipFirstInvolution | src/include/duckdb/common/radix.hpp:228-236 | flipping the first byte of a key twice gives the key back, which int64 decoding relies on |
| Radix.TwosComplement | src/include/duckdb/common/radix.hpp:125-127 | the unsigned bit pattern of an n-byte signed value is below 2^(8n), and below 2^(8n-1) exactly for non-negative values |
| Radix.SignedKeyIsOffset | src/include/duckdb/common/radix.hpp:124-153 | the big-endian two's complement with its first byte's top bit flipped equals the big-endian bytes of v + 2^(8n-1) |
| Radix.EncodeData | src/include/duckdb/common/radix.hpp:35-206 | encoding succeeds exactly for the specialised types; the generic template fails with "Cannot create data from this type" |
| Radix.EncodeFixedWidth | src/include/duckdb/common/radix.hpp:118-206 | every key is exactly sizeof of its type long |
| Radix.SignedOrder | src/include/duckdb/common/radix.hpp:124-153 | for n-byte signed values, x < y exactly when x's key is memcmp-smaller, and equal keys mean equal values |
| Radix.UnsignedOrder | src/include/duckdb/common/radix.hpp:155-173 | for n-byte unsigned values, x < y exactly when x's key is memcmp-smaller, and equal keys mean equal values |
| Radix.SignedKeys | src/include/duckdb/common/radix.hpp:124-153 | for int8 to int64 values of one type, value order is key order and keys coincide only for equal values |
| Radix.UnsignedKeys | src/include/duckdb/common/radix.hpp:118-173 | for bool and uint8 to uint64 values of one type, value order is key order and keys coincide only for equal values |
| Radix.CompositeKeys | src/include/duckdb/common/radix.hpp:175-206 | for hugeint, uhugeint and interval values of one type, lexicographic field order is key order and keys coincide only for equal values |
| Radix.EncodeOrderPreserving | src/include/duckdb/common/radix.hpp:118-206 | for any two encodable values of the same type, both encode, and one is smaller exactly when its key is memcmp-smaller |
| Radix.Int64Order | src/include/duckdb/common/radix.hpp:147-153 | int64 order is key order, and keys are equal exactly for equal values |
| Radix.UInt64Order | src/include/duckdb/common/radix.hpp:170-173 | uint64 order is key order, and keys are equal exactly for equal values |
| Radix.HugeintKeys | src/include/duckdb/common/radix.hpp:175-179 | hugeint keys compare as (upper, lower) pairs, upper signed and lower unsigned, and are equal exactly for equal pairs |
| Radix.UhugeintKeys | src/include/duckdb/common/radix.hpp:181-185 | uhugeint keys compare as (upper, lower) pairs and are equal exactly for equal pairs |
| Radix.IntervalKeys | src/include/duckdb/common/radix.hpp:199-206 | interval keys compare as (months, days, micros) triples and are equal exactly for equal triples |
| Radix.CompositeIsConcatenation | src/include/duckdb/common/radix.hpp:175-206 | composite keys are 16 bytes: the keys of their fields, one after another |
| Radix.UnsignedKeysAreBigEndian | src/include/duckdb/common/radix.hpp:118-173 | an unsigned key read back big-endian is the value; a bool key is the single byte 1 or 0 |
| Radix.SignedKeyValue | src/include/duckdb/common/radix.hpp:124-153 | a signed n-byte key read back big-endian is the value plus 2^(8n-1) |
| Radix.SignedKeysAreOffsetBigEndian | src/include/duckdb/common/radix.hpp:124-153 | int8, int16, int32 and int64 keys read back big-endian are the value plus 2^7, 2^15, 2^31 and 2^63 respectively |
| Radix.EncodeInjective | src/include/duckdb/common/radix.hpp:118-206 | keys of one type have the same length and are equal exactly for equal values |
| Radix.DecodeData | src/include/duckdb/common/radix.hpp:40-281 | decoding succeeds only for int64 and yields an int64; the generic template fails with "Cannot read data from this type"; every other specialisation fails with "FIXME Radix::DecodeData" |
| Radix.DecodeEncodeInt64 | src/include/duckdb/common/radix.hpp:228-236 | decoding the key of an int64 gives the value back |
| Radix.EncodeDecodeInt64 | src/include/duckdb/common/radix.hpp:228-236 | encoding the decoded int64 reproduces the 8 bytes it was read from |
| Radix.EncodeStringDataPrefix | src/include/duckdb/common/radix.hpp:45-51 | exactly prefix_len bytes are written: the string's bytes while they last, then zeros |
| Radix.PrefixOfLongerPrefix | src/include/duckdb/common/radix.hpp:45-51 | a shorter prefix key is the start of a longer one |
| Radix.PrefixMonotone | src/include/duckdb/common/radix.hpp:45-51 | strings in memcmp order keep that order, ties included, in their prefix keys |

## Left out

- The allocator's mutex (tuple_data_allocator.cpp:76,126,137): one sequential caller is modelled.
- The buffer manager's Allocate and Pin are modelled only as a fresh-handle supply and a count of pin calls per append operation. Buffer contents and eviction are left out: they are calls into code outside this model.
- Allocate and Pin always succeed in the model. The real buffer manager can throw when memory runs out; that failure, and the half-built state it would leave, is not modelled.
- The block move constructor and move assignment (tuple_data_allocator.cpp:13-24) are C++ ownership mechanics with no effect on the modelled state.
- Storage::BLOCK_SIZE is not part of this model. The standard block size is a field of the allocator, set at construction.
- The block's RemainingCapacity(row_width) overload is declared in a header that is not part of this model. It is taken to be the idx_t difference of capacity and fill, divided by the row width.
- idx_t and pointer wrap-around is modelled in two places only: the free-byte subtraction (TupleDataBlocks.RemainingCapacity) and the as-written address computation (TupleDataAsWritten.HeapLocationsAsWritten, modulo 2^64). Sums of payload sizes, fill counters and other offsets are unbounded, because for any real buffer they stay far below 2^64.
- The block indices taken as uint32_t by the pin functions are not truncated to 32 bits.
- A read of a heap row size past the filled rows and an index past a block list are `Failure` outcomes rather than undefined behaviour.
- A failed D_ASSERT is a `Failure` outcome. In a release build the check `D_ASSERT(next != 0)` (tuple_data_allocator.cpp:117) is compiled out. When a row is wider than the standard block size, each BuildChunk then returns a zero-row chunk, and the Build loop (tuple_data_allocator.cpp:33-61) adds 0 to its offset forever and never ends. The model reports `Failure(ZeroCountChunk)` instead, in debug and release alike.
- The as-written heap pointer lookup default-constructs a handle for the missing heap-map entry. That is modelled as `Failure(InvalidHandle)`.
- Build on top of the as-written step is not modelled as one member. Its first chunk already names a row block past the end (AsWrittenDescriptorOutOfRange), so each divergence is shown on the step where it occurs.
- The chunk list is a value, not a segment's vector. Row data, payload bytes and the row width's layout are left out.
- EncodeFloat, EncodeDouble and the float and double EncodeData specialisations (radix.hpp:57-115,187-197) are floating-point classification, which is not modelled.
- IsLittleEndian, Load, Store and BSwap (radix.hpp:26-33 and throughout) are not modelled. A little-endian host is assumed, so every store of a byte-swapped value is the value's big-endian bytes.
- Radix.DecodeData reads only the first 8 input bytes for int64. Its precondition asks for at least 8, as Load<uint64_t> does.
- Radix.PrefixMonotone: it states non-strict order only. Strictly ordered strings may share a prefix key.

## Findings

| source | as written | input that shows it | evidently intended | confidence | as-written member | corrected member |
|---|---|---|---|---|---|---|
| src/common/types/row/tuple_data_allocator.cpp:101 | on a payload overflow, `next = i` stores the absolute row index | one-byte rows, 25-byte blocks, five payloads of 10 bytes: the second step starts at row 2 and gets `next = 4`, so it reads the size of row 5 of 5 | `next = i - offset`, the number of rows taken in this chunk | not executed | TupleDataAsWritten.VariableChunkAsWritten, TupleDataAsWritten.ReadPastCountExample | TupleDataAllocator.VariableChunk |
| src/common/types/row/tuple_data_allocator.cpp:98-105 | the scan runs to `count` and the break replaces the row-capacity bound of line 81 | 25-byte rows and blocks, three payloads of 10 bytes: the row block has room for 1 row but the chunk takes 2, filling 50 of 25 bytes | scan only the rows the row block can take, and only lower `next` | not executed | TupleDataAsWritten.BuildChunkAsWritten, TupleDataAsWritten.RowOverfillExample | TupleDataAllocator.BuildChunk |
| src/common/types/row/tuple_data_allocator.cpp:98-111 | the payload total covers rows up to `count`, including rows not in the chunk | 25-byte rows and blocks, two payloads of 1 byte: one row is placed, but 2 payload bytes are marked filled | the total of the chunk's own rows' payloads | not executed | TupleDataAsWritten.Scan, TupleDataAsWritten.HeapOvercountExample | TupleDataAllocator.VariableChunk |
| src/common/types/row/tuple_data_allocator.cpp:118 | the descriptor gets the block lists' lengths and the row block's fill after growth | any successful step: its row block index equals the number of row blocks, so GetRowPointer indexes past the end | the last blocks' indices, and the row block's fill before growth | not executed | TupleDataAsWritten.ConstantChunkAsWritten, TupleDataAsWritten.VariableChunkAsWritten, TupleDataAsWritten.AsWrittenDescriptorOutOfRange, TupleDataAsWritten.AsWrittenAgreesWithoutPayloads | TupleDataAllocator.BuildChunk |
| src/common/types/row/tuple_data_allocator.cpp:140 | PinHeapBlock stores the new handle in `row_handles` | an empty cache and heap block 0: GetHeapPointer finds no heap handle, every call pins again, and row block 0's next lookup gets heap block 0's buffer | store it in `heap_handles`, the map the function checks and GetHeapPointer reads | not executed | TupleDataAsWritten.PinHeapBlockAsWritten, TupleDataAsWritten.HeapPinExample | TupleDataPins.PinHeapBlock |
| src/common/types/row/tuple_data_allocator.cpp:48 | the heap row sizes are read from `heap_locations`, the buffer the addresses are written to | first payload at address 4096 and two 8-byte payloads: the second address becomes 8192 | read them from `heap_row_sizes`, as BuildChunk does, giving 4104 | not executed | TupleDataAsWritten.HeapLocationsAsWritten, TupleDataAsWritten.HeapLocationsExample | TupleDataBuild.HeapLocations |

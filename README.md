# ebs-folder-warmer in Dafny

A model of the sequential core of ebs-folder-warmer, a set of tools that pull block-device or file contents into the
cache before they are needed: `disk-warmer` (C, reads an EBS volume's extents and then the rest of the device with
O_DIRECT through libaio or io_uring), `rust-cache-warmer` (Rust, warms the files of directory trees through a chain of
backends: io_uring, libaio, OS read-ahead hints, and plain Tokio reads) and `page-cache-warmer` (C, walks directories
with worker threads and reads every file through io_uring or libaio).

Every kernel or library call the programs make (`open`, `posix_memalign`, `realloc`, `calloc`, `io_setup`,
`io_submit`, `io_getevents`, the `io_uring_*` calls, `posix_fadvise`, `mmap`/`madvise`, seeks and reads, directory
listings, `lstat`, `getpriority`/`ioprio_get`, channel sends) is an input of the model: a boolean, an `Option`, or a
function from the call's index or position to its outcome. The read loops see a file through a `ByteSource`: its
content length and, per position, whether a seek or read works and how many bytes a read hands back. Buffers, the
`io_context`, rings and mappings are tracked by a trace of `Acquire`/`Release` events (module `Resources`), and
"balanced" means every resource acquired is released exactly once.

Modules follow the source files:

- `CInt`, `Resources`, `Wrappers` (common.dfy): C's truncating `/` and `%`, 64-bit wrap-around, the resource trace.
- `Extents` (disk-warmer/main.c): the growable extent array as a class over an `array`, `extent_compare`, and the
  in-place merge of adjacent extents, proved against a functional `Merge`.
- `Bitmap` (disk-warmer/main.c): the warmed-block bitmap as a class over an `array<bv8>`.
- `Device` (disk-warmer/main.c): `device_align_io_params`.
- `AlignedBuffers` (disk-warmer/io_operations.c, identical in page-cache-warmer): buffer allocation with rollback.
- `ReadPlan`, `DiskIo` (disk-warmer/io_operations.c): the read schedules of phase 1 (extents) and phase 2 (the rest of
  the device) as functions, and the four scheduling loops as methods proved to issue exactly those schedules.
- `Warming`, `Fallback`, `TokioAsync`, `ReadLoops`, `IoUring`, `Libaio`, `Engine` (the Rust warming engine): each
  backend's outcome, calls, reads and memory events as a function, each read loop as a method proved equal to it, and
  `warm_file`'s backend order as a function over the backends.
- `Discovery`, `Accounting` (rust-cache-warmer/src/main.rs): the discovery future's batching and the per-file counters,
  with the counters a class whose fields are updated in place.
- `PageCacheFiles` (page-cache-warmer/filesystem.c): `file_list` as a class over an `array`, the path stack, and one
  worker's handling of a directory, proved against a reference walk `Explore`.
- `PageCacheSlots`, `PageCacheUring`, `PageCacheAio` (page-cache-warmer/io_operations.c): the shared slot-table facts
  and the two readers' tables over `array`s, each loop proved against a functional loop.
- `PageCacheConfig` (page-cache-warmer/main.c): `config_init`, the option loop, and the throttle priorities.

Three behaviours are modelled as the code is written, not as it was perhaps meant:

- `bitmap_init` sizes the bitmap by the ceiling of `disk_size / block_size` but `bitmap_mark_range` stops at the floor,
  so a trailing partial block is never marked (`Bitmap.TrailingPartialBlockNeverMarked`); phase 2 therefore reads it.
- page-cache-warmer's libaio reader `io_warm_files` does not advance `file_index` after a successful open, reads the
  size through `files[file_index]`, and writes `iocbsp[inflight]`; the model follows this, proves the slot-table
  facts about it, and shows the first file being opened into every free slot (`PageCacheAio.ReopensSameFile`).
- the io_uring fallbacks of disk-warmer call `io_warm_extents` with one argument short; the model has them call
  `io_warm_extents` with the arguments they do pass.

## Model

| member | source | states |
|---|---|---|
| CInt.Div | disk-warmer/io_operations.c:26 | C's `/` on a positive divisor: the quotient is truncated toward zero, for either sign of the dividend |
| CInt.Mod | disk-warmer/main.c:356 | C's `%`: `a == Div(a, b) * b + r`, and the remainder takes the sign of `a` |
| Resources.WellFormedCounts | disk-warmer/io_operations.c:4-20 | in a trace with no double acquire or stray release, each resource is acquired as often as it is released, plus one if it is still held |
| Resources.PoolBalanced | disk-warmer/io_operations.c:4-20 | allocating buffers 0..n-1 and then freeing them in order leaves nothing held |
| AlignedBuffers.AllocateAlignedBuffers | disk-warmer/io_operations.c:4-14 | returns 0 exactly when every `posix_memalign` succeeds, and then buffers 0..count-1 are held; otherwise it fails at the first failing index f, frees exactly buffers 0..f-1 and returns -1 with nothing held |
| AlignedBuffers.FreeAlignedBuffers | disk-warmer/io_operations.c:16-20 | frees buffers 0..count-1 in index order |
| Extents.Compare | disk-warmer/main.c:158-167 | `extent_compare` is -1, 0 or 1, and its sign is that of the difference of the physical offsets alone |
| Extents.CompareIsTotalPreorder | disk-warmer/main.c:158-167 | the comparator is antisymmetric, transitive, total and reflexive: a valid `qsort` order |
| Extents.AbsorbCoversRun | disk-warmer/main.c:182-217 | one absorption covers exactly `cur` plus a physically contiguous run of following extents; with a positive cap a merged extent stays within it; it stops only at the end of the list or at an extent that is not mergeable |
| Extents.MergePreservesTotalLength | disk-warmer/main.c:176-219 | merging the extents from index i on keeps their total length |
| Extents.MergeTotalLength | disk-warmer/main.c:169-223 | the merged list is no longer than the input and has the same total length |
| Extents.MergeRespectsCap | disk-warmer/main.c:191-197 | with `max_merge_size > 0`, an output extent longer than the cap is an input extent left unmerged |
| Extents.MergeKeepsSorted | disk-warmer/main.c:176-219 | merging a list sorted by physical offset yields a list sorted by physical offset |
| Extents.MergeShort | disk-warmer/main.c:171-172 | lists of at most one extent merge to themselves |
| Extents.MergeInPlace | disk-warmer/main.c:174-222 | the in-place read/write compaction leaves exactly `Merge(old contents)` in `a[..write]` |
| Extents.ExtentList.constructor | disk-warmer/main.c:124-129 | `extent_list_init`: no array, count and capacity 0, empty contents |
| Extents.ExtentList.Append | disk-warmer/main.c:131-148 | with room, or when realloc succeeds, the contents gain exactly `(physical_offset, length)` at the end; the capacity goes 0 to 16 and then doubles only when full; when realloc fails the list is unchanged; `count <= capacity` is kept |
| Extents.ExtentList.Free | disk-warmer/main.c:150-156 | `extent_list_free`: no array, count and capacity 0 |
| Extents.ExtentList.MergeAdjacent | disk-warmer/main.c:169-223 | the new contents are `Merge(old contents)` in the same array, the returned count is the new count and no larger than the old one, and a list of at most one extent keeps its count |
| Bitmap.NumBlocks | disk-warmer/main.c:230 | the least number of blocks covering the disk |
| Bitmap.BitmapBytes | disk-warmer/main.c:231 | the least number of bytes holding one bit per block |
| Bitmap.SetBitOnly | disk-warmer/main.c:247-252 | setting one block's bit sets that block and leaves every other block as it was |
| Bitmap.MarkFromBits | disk-warmer/main.c:243-253 | after the marking loop a block is set exactly when it was set before or it was visited and has a byte in the array: bits are only ever OR-ed in |
| Bitmap.MarkRangeMarks | disk-warmer/main.c:235-254 | after `bitmap_mark_range(start, length)` a block is marked exactly when it was marked before or it lies in `[start/bs, (start+length-1)/bs]` and below `disk_size/bs` |
| Bitmap.TrailingPartialBlockNeverMarked | disk-warmer/main.c:230-244 | when `block_size` does not divide `disk_size`, the last block has a bit in the array but no call of `bitmap_mark_range` sets it |
| Bitmap.IsMarkedIn | disk-warmer/main.c:256-268 | `bitmap_is_marked(offset)` is the bit of block `offset / block_size`, false beyond the array |
| Bitmap.ZeroedMarksNothing | disk-warmer/main.c:232 | a freshly `calloc`ed bitmap marks no block |
| Bitmap.WarmedBitmap.constructor | disk-warmer/main.c:226-233 | `bitmap_init` records the sizes, sizes the array by `BitmapBytes`, and has zeroed data exactly when `calloc` succeeds |
| Bitmap.WarmedBitmap.MarkRange | disk-warmer/main.c:235-254 | the bytes after the call are `MarkRangeBytes` of the bytes before; without data nothing changes |
| Bitmap.WarmedBitmap.IsMarked | disk-warmer/main.c:256-268 | false without data, otherwise the bit of block `offset / block_size` |
| Bitmap.WarmedBitmap.Free | disk-warmer/main.c:270-274 | `bitmap_free` drops the data and keeps the sizes |
| Device.AlignUp | disk-warmer/main.c:356-358 | the result is a multiple of the alignment, an aligned value is kept, and a non-negative value rises by less than one alignment |
| Device.AlignUpIsLeast | disk-warmer/main.c:356-358 | for a non-negative value the result is the least multiple of the alignment not below it |
| Device.AlignIoParams | disk-warmer/main.c:345-369 | without direct I/O both values are unchanged; with it both become multiples of `physical_sector_size`, each within one sector above its input |
| Device.AlignIoParamsIdempotent | disk-warmer/main.c:345-369 | aligning the aligned parameters again changes nothing |
| ReadPlan.OffsetsFromShape | disk-warmer/io_operations.c:76-103 | the reads of one extent are `physical_offset + k*stride` for exactly the k with `k*stride < length`, in increasing k |
| ReadPlan.OffsetsFromCount | disk-warmer/io_operations.c:76-103 | an extent of positive length reads `ceil(length / stride)` times and one of length <= 0 never |
| ReadPlan.StridesCountReadsFrom | disk-warmer/io_operations.c:23-29 | with no negative lengths, the reads from extent i on number the stride counts of extents i onwards |
| ReadPlan.TotalStridesCountsReads | disk-warmer/io_operations.c:23-29 | with no negative lengths, `calculate_total_strides` before wrap-around equals the number of phase-1 reads when no batch fails |
| ReadPlan.DiskReadsShape | disk-warmer/io_operations.c:177-199 | every phase-2 read is at a stride offset below `disk_size` that the bitmap does not mark, with length `min(read_size, disk_size - offset)`, so no read ends past `disk_size` |
| ReadPlan.DiskReadsIncreasing | disk-warmer/io_operations.c:177-199 | phase 2 reads the device front to back: offsets strictly increase |
| ReadPlan.DiskReadsComplete | disk-warmer/io_operations.c:177-199 | every unmarked stride offset below `disk_size` is read, with the clamped length |
| ReadPlan.ChunksShape | disk-warmer/io_operations.c:72-105 | cutting the schedule into batches loses and reorders nothing, each batch holds 1 to `queue_depth` reads, and every batch but the last is full |
| ReadPlan.AioBatchesPrefix | disk-warmer/io_operations.c:110-129 | the batches dispatched are a prefix of the schedule's batches, and at least one is dispatched when there is any |
| ReadPlan.AioBatchesStop | disk-warmer/io_operations.c:110-129 | every dispatched batch but the last was taken whole by `io_submit` and `io_getevents`, and the loop stops early only after a batch that was not |
| ReadPlan.AioBatchesAllOk | disk-warmer/io_operations.c:110-129 | when every batch is taken whole, all of the schedule's batches are dispatched |
| ReadPlan.UringBatchesShape | disk-warmer/io_operations.c:273-310 | the io_uring batches issue a prefix of the schedule in order, each batch holding 1 to `queue_depth` reads and no more than the free ring entries |
| ReadPlan.UringBatchesWithRoom | disk-warmer/io_operations.c:286-289 | when the ring always has `queue_depth` free entries, the io_uring batches are the libaio batches |
| ReadPlan.MarkReadsAppend | disk-warmer/io_operations.c:93-96 | marking two runs of reads one after the other marks their concatenation |
| ReadPlan.MarkReadsBits | disk-warmer/io_operations.c:93-96 | after marking the issued reads a block is marked exactly when it was marked before or some read's range covers it |
| DiskIo.SessionBalanced | disk-warmer/io_operations.c:40-146 | context, buffer pool, `io_destroy` and `free_aligned_buffers` release everything acquired |
| DiskIo.AbortedSessionBalanced | disk-warmer/io_operations.c:51-57 | a pool failure followed by `io_destroy` releases everything acquired |
| DiskIo.CalculateTotalStrides | disk-warmer/io_operations.c:23-29 | the result is the sum of the per-extent `(length + stride - 1) / stride`, C division, modulo 2^64 |
| DiskIo.PrepareExtentBatch | disk-warmer/io_operations.c:76-103 | the inner loop takes the next `min(queue_depth, free entries, reads left)` reads of the schedule from its cursor, skipping used-up extents, and marks each in the bitmap |
| DiskIo.DispatchExtents | disk-warmer/io_operations.c:72-130 | the batches issued are `AioBatches(Chunks(ExtentReads))`, `total_reads` is their total, and the bitmap marks exactly those reads |
| DiskIo.WarmExtents | disk-warmer/io_operations.c:32-147 | `io_warm_extents` returns 0 exactly when `io_setup` and every buffer allocation succeed, and then issues the libaio batches of the schedule; on -1 nothing is issued; the resource trace is balanced, and empty when `io_setup` fails |
| DiskIo.ReapedSpec | disk-warmer/io_operations.c:321-333 | the completions reaped for a batch are the successful waits before the first failed one, at most `submitted` |
| DiskIo.WaitCompletions | disk-warmer/io_operations.c:321-333 | the completion loop reaps `Reaped(submitted)` completions |
| DiskIo.DispatchExtentsUring | disk-warmer/io_operations.c:269-334 | the batches issued are `UringBatches` of the schedule, each batch reaps `Reaped` completions, `total_reads` is their total, and the bitmap marks exactly those reads |
| DiskIo.WarmExtentsUring | disk-warmer/io_operations.c:238-343 | with a ring, returns 0 exactly when the buffers are allocated and issues the io_uring batches; without one, it falls back to `io_warm_extents` and returns its result; the resource trace is balanced |
| DiskIo.PrepareDiskBatch | disk-warmer/io_operations.c:181-199 | the inner loop takes the next `min(queue_depth, free entries, reads left)` reads of `DiskReads` from its offset |
| DiskIo.DispatchDisk | disk-warmer/io_operations.c:177-225 | the batches issued are `AioBatches(Chunks(RemainingReads))` and `total_reads` is their total |
| DiskIo.DispatchDiskUring | disk-warmer/io_operations.c:371-422 | the batches issued are `UringBatches(RemainingReads)`, each batch reaps `Reaped` completions, and `total_reads` is their total |
| DiskIo.WarmRemainingDisk | disk-warmer/io_operations.c:149-234 | returns 0 exactly when the device size is positive, `io_setup` succeeds and the buffers are allocated, and then issues the phase-2 libaio batches; the resource trace is balanced, and empty when the size or `io_setup` fails |
| DiskIo.WarmRemainingDiskUring | disk-warmer/io_operations.c:345-431 | as `io_warm_remaining_disk` with io_uring batches, and with the libaio variant as fallback when both ring initialisations fail |
| Engine.UringWins | rust-cache-warmer/src/warming/mod.rs:44-48 | when io_uring is compiled in and `use_io_uring` is set, its result is returned as it is, whatever `use_libaio` says; without direct I/O that result is `Unsupported` with nothing opened; a success carries an io_uring tag |
| Engine.LibaioSecond | rust-cache-warmer/src/warming/mod.rs:50-54 | otherwise libaio, when compiled in and asked for, decides the result alone in the same way, with no fall-through on `Unsupported` |
| Engine.HintsOnlyOnSuccess | rust-cache-warmer/src/warming/mod.rs:56-66 | with neither native backend selected, the OS hints' result is returned exactly when it is `Ok` with `success`; in every other case the Tokio reader's outcome is returned; a hint tag appears exactly when the hints succeeded |
| Engine.UnsupportedHintsNeverSurface | rust-cache-warmer/src/warming/mod.rs:58-66 | `warm_file` never returns the `os_hints_unsupported` result |
| Engine.WarmFileBalanced | rust-cache-warmer/src/warming/mod.rs:31-67 | whichever backends run, every aligned buffer and mapping acquired during one `warm_file` is released |
| Fallback.FadviseDropsOnlyAfterWarm | src/warming/fallback.rs:51-69 | `success` is the WILLNEED result; DONTNEED is issued exactly when WILLNEED worked and only as the second call; only `posix_fadvise` is called and no memory is held |
| Fallback.MadviseUnmapsOnce | src/warming/fallback.rs:72-94 | `success` is `mmap` and WILLNEED both working; a failed `mmap` issues no advice and holds nothing; a mapping is advised WILLNEED and unmapped exactly once, as the last call; FREE is issued exactly when both worked; the mapping is released |
| Fallback.OsHintsOutcome | src/warming/fallback.rs:15-48 | `Err` exactly when the open fails, carrying its error and issuing nothing else; otherwise the platform's tag, with `success` exactly when that platform's hint worked; no reads; no memory left held |
| TokioAsync.WarmFileDispatch | src/warming/tokio_async.rs:18-36 | the direct path (an `O_DIRECT` open) is taken exactly when direct I/O is asked for on Linux |
| TokioAsync.DirectIoOutcome | src/warming/tokio_async.rs:47-169 | a failed open returns its error, a failed allocation `OutOfMemory`, both with nothing read or held; otherwise `Ok` with `success` and the sparse or full tag, and the one buffer is allocated and freed once |
| TokioAsync.DirectSparsePlan | src/warming/tokio_async.rs:59-96 | each sample seeks to a multiple of 64 KiB below the file size (already 4096-aligned) and reads 4096 bytes there, one sample every 64 KiB from 0, stopping at the first failed seek, failed read or empty read |
| TokioAsync.DirectFullPlan | src/warming/tokio_async.rs:122-151 | each read asks for a multiple of 4096 of at most 1 MiB at an offset below the file size, after a seek to that offset; the next chunk starts where the bytes actually read end |
| TokioAsync.ManualReadingOutcome | src/warming/tokio_async.rs:171-253 | a failed open returns its error; otherwise `Ok` with `success` and tag `tokio_sparse` or `tokio_full`, followed on Linux by a DONTNEED; no aligned memory is used |
| TokioAsync.ManualSparsePlan | src/warming/tokio_async.rs:185-204 | a seek to each multiple of 4096 below the file size in turn, each followed by a 1-byte read, stopping at the first failure |
| TokioAsync.DirectSparseLoop | src/warming/tokio_async.rs:74-98 | the `while` loop makes exactly the seeks and reads of the sparse plan |
| TokioAsync.DirectFullLoop | src/warming/tokio_async.rs:122-153 | the `while` loop makes exactly the seeks and reads of the full plan |
| TokioAsync.WarmWithDirectIo | src/warming/tokio_async.rs:47-169 | `warm_with_direct_io` yields the outcome, calls, reads and buffer events that `DirectIoOutcome` characterises |
| TokioAsync.ManualSparseLoop | src/warming/tokio_async.rs:185-204 | the page loop makes exactly the seeks and 1-byte reads of the manual sparse plan |
| TokioAsync.ManualFullLoop | src/warming/tokio_async.rs:219-232 | the streaming loop makes exactly the reads of `StreamCalls` from offset 0 |
| TokioAsync.WarmWithManualReading | src/warming/tokio_async.rs:171-253 | `warm_with_manual_reading` yields the outcome and calls that `ManualReadingOutcome` characterises |
| ReadLoops.AlignDown | src/warming/tokio_async.rs:77 | the result is the largest multiple of the alignment not above the offset, and an aligned offset is kept |
| ReadLoops.SampleCallsShape | src/warming/tokio_async.rs:75-96 | a sampling loop reads `len` bytes at aligned positions from the start offset and below the file size, one interval apart, each read preceded by a seek to it when seeking |
| ReadLoops.SampleCallsStop | src/warming/tokio_async.rs:79-94 | the sampling loop makes no call exactly when the start is at or past the file size; every sample but the last succeeded; it stops at the last interval or at a failed one |
| ReadLoops.SampleCallsComplete | src/warming/tokio_async.rs:75-96 | when every sample succeeds the loop reaches the last interval before the file size |
| ReadLoops.ChunkRequest | src/warming/tokio_async.rs:127-132 | the request is a multiple of 4096 of at most 1 MiB, rounds `min(1 MiB, remaining)` up by less than 4096, and is positive while bytes remain |
| ReadLoops.ChunkCallsShape | src/warming/tokio_async.rs:126-151 | every chunk read lies at or after the start and below the file size and asks for a `ChunkRequest`; each chunk starts where the bytes actually read by the previous one end |
| ReadLoops.ChunkCallsStop | src/warming/tokio_async.rs:134-149 | the chunk loop makes no call exactly when the start is at or past the file size; every chunk but the last succeeded; it stops at the end of the file or at a failed or empty read |
| ReadLoops.StreamCallsShape | src/warming/tokio_async.rs:223-232 | the streaming loop reads 8 KiB buffers from consecutive positions, each starting where the bytes read before it end, and reaches the end of the content when reads never fail |
| IoUring.WarmFileOutcome | rust-cache-warmer/src/warming/io_uring.rs:14-165 | `Unsupported` with nothing opened exactly when io_uring is not compiled in or direct I/O is off; otherwise one direct open, `Ok` exactly when it and the buffer allocation succeed, the open's error or `OutOfMemory` otherwise; a success has the sparse or full tag; the buffer is released |
| IoUring.SparsePlan | rust-cache-warmer/src/warming/io_uring.rs:68-87 | each read is 4096 bytes at a multiple of 64 KiB below the file size, from 0 and one interval apart; every read but the last succeeded |
| IoUring.FullPlan | rust-cache-warmer/src/warming/io_uring.rs:111-136 | each read asks for a multiple of 4096 of at most 1 MiB below the file size, from 0; the next starts where the bytes actually read end |
| IoUring.SparseLoop | rust-cache-warmer/src/warming/io_uring.rs:69-85 | the sparse `while` loop makes exactly the reads of the sparse plan |
| IoUring.FullLoop | rust-cache-warmer/src/warming/io_uring.rs:115-134 | the full `while` loop makes exactly the reads of the full plan |
| IoUring.WarmWithIoUringDirect | rust-cache-warmer/src/warming/io_uring.rs:35-152 | `warm_with_io_uring_direct` yields the outcome, reads and buffer events that `WarmFileOutcome` characterises |
| Libaio.SparsePlanShape | rust-cache-warmer/src/warming/libaio.rs:84-101 | the sparse plan has `ceil(size / 64 KiB)` reads, read i being 4096 bytes at `64 KiB * i`, below the file size |
| Libaio.FullPlanShape | rust-cache-warmer/src/warming/libaio.rs:165-186 | the full plan has `ceil(size / 1 MiB)` reads from 0, each a multiple of 4096 of at most 1 MiB starting where the previous request ends, the last reaching the file size |
| Libaio.PoolMatchesPlan | rust-cache-warmer/src/warming/libaio.rs:60-61 | the pool holds `min(MAX_QUEUE_DEPTH, reads planned)` buffers, positive exactly for a non-empty file |
| Libaio.WarmFileOutcome | rust-cache-warmer/src/warming/libaio.rs:14-235 | `Unsupported` with nothing opened exactly when libaio is not compiled in or direct I/O is off; otherwise the open's error, `Other` when the Rio instance cannot be created, `OutOfMemory` exactly when some pool allocation fails, and `Ok` exactly when all succeed, with the mode's tag, the whole plan submitted and the pool allocated and freed |
| Libaio.SparseBatch | rust-cache-warmer/src/warming/libaio.rs:85-101 | one sparse batch takes the next `min(pool, reads left)` reads of the plan, buffer k for its k-th read |
| Libaio.SparseBatches | rust-cache-warmer/src/warming/libaio.rs:84-118 | the sparse batches are the plan cut into chunks of the pool size, buffer k serving position k |
| Libaio.FullBatch | rust-cache-warmer/src/warming/libaio.rs:166-186 | one full batch takes the next `min(pool, reads left)` reads of the plan |
| Libaio.FullBatches | rust-cache-warmer/src/warming/libaio.rs:165-201 | the full batches are the plan cut into chunks of the pool size, buffer k serving position k |
| Libaio.AllocationFails | rust-cache-warmer/src/warming/libaio.rs:68-78 | the pool allocation runs to the end exactly when every buffer's allocation succeeds |
| Libaio.SubmitAll | rust-cache-warmer/src/warming/libaio.rs:84-118 | the batches submitted are the mode's plan cut into chunks of the pool size |
| Libaio.WithBufferPool | rust-cache-warmer/src/warming/libaio.rs:63-125 | the pool step yields `PooledRun`: `OutOfMemory` after freeing the buffers allocated before the first failure, otherwise the plan submitted in pool-sized batches, buffer k at position k, and the whole pool freed |
| Libaio.WarmWithLibaioDirect | rust-cache-warmer/src/warming/libaio.rs:35-222 | `warm_with_libaio_direct` yields the outcome `WarmFileOutcome` characterises, and on success submits the plan in pool-sized batches |
| Discovery.BatchLimit | rust-cache-warmer/src/main.rs:200 | a batch holds `batch_size` paths, and at least one when `batch_size` is 0 |
| Discovery.DiscoverShape | rust-cache-warmer/src/main.rs:177-224 | the batches sent are, in order, a prefix of the regular files walked; each holds 1 to the batch limit, and all are full unless every file was sent; when the receiver takes every batch, every file is sent and counted |
| Discovery.WalkEntries | rust-cache-warmer/src/main.rs:192-213 | the walk pushes each regular file onto the current batch and sends it when full; a refused send stops the walk with every earlier send accepted |
| Discovery.DiscoverFiles | rust-cache-warmer/src/main.rs:177-225 | the spawned walker's loop yields the batches and the file count of the reference `Discover` |
| Discovery.StoppedMatches | rust-cache-warmer/src/main.rs:201-204 | a walk stopped by a refused full batch has produced exactly `Discover`'s result |
| Discovery.FinalRefused | rust-cache-warmer/src/main.rs:217-221 | when the last partial batch is refused, the sent batches and the count of every file are `Discover`'s result |
| Accounting.WrapAdd | rust-cache-warmer/src/main.rs:312-313 | `fetch_add` on a 64-bit counter: the exact sum below 2^64, the sum modulo 2^64 in general |
| Accounting.CategoriesPartition | rust-cache-warmer/src/main.rs:278-284 | every size falls in exactly one bucket of `size_category`, and bigger files never fall in a smaller bucket |
| Accounting.BatchPartition | rust-cache-warmer/src/main.rs:266-314 | every path of a batch is counted once as a metadata failure, an oversize skip or a warm call; each warm call carries the file's metadata size within the limit, and the bytes counted are the sum of those sizes |
| Accounting.AvgFileSize | rust-cache-warmer/src/main.rs:345 | zero with no files, otherwise the integer quotient of bytes by files |
| Accounting.Counters.constructor | rust-cache-warmer/src/main.rs:228-229 | both counters start at zero |
| Accounting.Counters.ProcessFile | rust-cache-warmer/src/main.rs:267-314 | one path adds one to the processed count, and adds the file's size to the bytes only when a warm attempt is made, both modulo 2^64 |
| Accounting.Counters.ProcessBatch | rust-cache-warmer/src/main.rs:262-318 | a batch adds its length to the processed count and its warmed bytes to the total, and makes exactly its warm calls |
| Accounting.Counters.ProcessAll | rust-cache-warmer/src/main.rs:239-324 | processing every received batch adds the number of paths and their warmed bytes, modulo 2^64 |
| Accounting.Run | rust-cache-warmer/src/main.rs:173-334 | when the receiver takes every batch, the file count is the number of regular files walked, every one is processed once, and the total bytes are their warmed bytes |
| PageCacheFiles.Truncate | page-cache-warmer/filesystem.c:30-31 | a stored path is a prefix of the given one below `MAX_PATH_LENGTH`, and a short path is kept whole |
| PageCacheFiles.FileList.constructor | page-cache-warmer/filesystem.c:142-146 | `file_list_init`: no array, count and capacity 0, empty contents |
| PageCacheFiles.FileList.Append | page-cache-warmer/filesystem.c:148-162 | with room or a successful `realloc` the entry is added at the end; capacity goes 0 to 1024 and doubles only when full; a failed `realloc` leaves the list unchanged |
| PageCacheFiles.FileList.Free | page-cache-warmer/filesystem.c:164-172 | every stored path is freed, in order, and the list is emptied |
| PageCacheFiles.PathStack.constructor | page-cache-warmer/filesystem.c:103-105 | the stack starts with the root at the given depth |
| PageCacheFiles.PathStack.EnqueuePath | page-cache-warmer/filesystem.c:28-35 | `enqueue_path` pushes the truncated path on top and leaves `queue_size` to the caller |
| PageCacheFiles.PathStack.PushDirectory | page-cache-warmer/filesystem.c:74-78 | pushing a directory under the mutex keeps `queue_size` equal to the stack length |
| PageCacheFiles.PathStack.Pop | page-cache-warmer/filesystem.c:51-53 | popping takes the top item and leaves the rest, with `queue_size` following |
| PageCacheFiles.ClassifyRules | page-cache-warmer/filesystem.c:64-84 | `.`, `..`, failed `lstat` and other kinds are skipped; a directory is descended into, one level deeper, exactly when `max_depth == -1` or the parent is above it; a regular file is added with its size |
| PageCacheFiles.SubdirsWithinDepth | page-cache-warmer/filesystem.c:72-78 | with a depth limit, every subdirectory a listing pushes is one level deeper and at most the limit |
| PageCacheFiles.ListDirectory | page-cache-warmer/filesystem.c:56-88 | one directory's listing pushes its subdirectories onto the stack and appends its regular files, in `readdir` order, with a failed `realloc` keeping as many as fit; an unopenable directory changes nothing |
| PageCacheFiles.HandleEntry | page-cache-warmer/filesystem.c:71-85 | a descend pushes the path, an added file is appended (or dropped on a failed `realloc`), a skip changes nothing |
| PageCacheFiles.ExploreWithinDepth | page-cache-warmer/filesystem.c:72-79 | with a depth limit no directory deeper than the bound is ever on the stack |
| PageCacheFiles.DiscoverFiles | page-cache-warmer/filesystem.c:93-140 | discovery from one root leaves on the stack and in the list exactly what the reference walk `Explore` gives |
| PageCacheFiles.Drain | page-cache-warmer/filesystem.c:121-135 | working until the stack is empty or the fuel is spent appends the files `Explore` finds |
| PageCacheFiles.WorkerPass | page-cache-warmer/filesystem.c:40-89 | one worker iteration pops a directory and lists it, advancing the walk by one step of `Explore` |
| PageCacheSlots.FirstFree | page-cache-warmer/io_operations.c:64-69 | the lowest free slot, or -1 exactly when every slot is occupied |
| PageCacheSlots.FindFreeSlot | page-cache-warmer/io_operations.c:63-70 | the scan returns `FirstFree` of the table |
| PageCacheSlots.OccupiedFull | page-cache-warmer/io_operations.c:70 | the table is full exactly when every slot is counted as occupied |
| PageCacheSlots.OccupiedUpdate | page-cache-warmer/io_operations.c:72 | storing a descriptor moves the occupied count by one when a slot changes between free and occupied, and leaves it otherwise |
| PageCacheSlots.AllFreeUnoccupied | page-cache-warmer/io_operations.c:55 | a table of free slots has nothing occupied |
| PageCacheUring.FreeSlotExists | page-cache-warmer/io_operations.c:171-179 | below `queue_depth` in flight there is a free request, so the dead `q_idx == -1` break is never taken |
| PageCacheUring.DispatchStep | page-cache-warmer/io_operations.c:172-199 | dispatch uses the lowest free request; an unopenable file only moves `file_index` on, an opened one fills that request from offset 0 and counts one more in flight |
| PageCacheUring.PlaceKeeps | page-cache-warmer/io_operations.c:188-198 | filling a free request keeps `inflight` equal to the number of occupied requests, each at its own index |
| PageCacheUring.DispatchKeeps | page-cache-warmer/io_operations.c:171-200 | the dispatch loop keeps the table invariant, never lowers `file_index` or `inflight`, keeps `inflight <= queue_depth`, and stops when the table is full or the files are used up |
| PageCacheUring.CompleteRule | page-cache-warmer/io_operations.c:216-232 | a completion with bytes left resubmits the request at its new offset; one that reaches the size, or returns `res <= 0`, closes the request and lowers `inflight`; no other request changes |
| PageCacheUring.UringLoopKeeps | page-cache-warmer/io_operations.c:170-234 | the loop as written keeps the table invariant and `0 <= inflight <= queue_depth`, and when it ends normally every file was dispatched and every request is free |
| PageCacheUring.UnopenableFilesHang | page-cache-warmer/io_operations.c:209-214 | when no file can be opened, the loop as written waits for a completion with nothing in flight |
| PageCacheUring.NoOpenDispatch | page-cache-warmer/io_operations.c:181-186 | when no file opens, one dispatch pass moves `file_index` to the end and changes nothing else |
| PageCacheUring.UnopenableFilesFinishGuarded | page-cache-warmer/io_operations.c:209-214 | with the wait guarded by `inflight > 0`, unopenable files end the loop normally with every file passed over |
| PageCacheUring.GuardedLoopKeeps | page-cache-warmer/io_operations.c:170-234 | the guarded loop keeps the table invariant, never hangs, and when it ends normally every file was dispatched and every request is free |
| PageCacheUring.FindFreeRequest | page-cache-warmer/io_operations.c:172-178 | the scan over `requests` returns the lowest free one |
| PageCacheUring.DispatchFiles | page-cache-warmer/io_operations.c:171-200 | the inner `while` loop leaves the request array, `file_index` and `inflight` as `Dispatch` gives |
| PageCacheUring.CompleteRequest | page-cache-warmer/io_operations.c:216-232 | handling one completion leaves the table as `Complete` gives |
| PageCacheUring.WarmFilesUring | page-cache-warmer/io_operations.c:151-240 | returns 0 exactly when the ring and every buffer are set up, then runs the loop as written; -1 otherwise; the resources acquired are all released, and none are when the ring fails |
| PageCacheUring.RunRounds | page-cache-warmer/io_operations.c:170-234 | the outer loop over the request array follows `UringLoop` |
| PageCacheAio.DispatchStep | page-cache-warmer/io_operations.c:63-83 | dispatch uses the lowest free slot; an unopenable file moves `file_index` on, an opened one fills the slot from offset 0 without moving `file_index` |
| PageCacheAio.DispatchKeeps | page-cache-warmer/io_operations.c:62-84 | the dispatch loop keeps the table at `queue_depth` slots with `inflight <= queue_depth`, and never lowers `inflight` or `file_index` |
| PageCacheAio.ReopensSameFile | page-cache-warmer/io_operations.c:72-83 | while opens succeed, dispatch fills every free slot with the same file and `file_index` does not move |
| PageCacheAio.FirstFileOpenedTwice | page-cache-warmer/io_operations.c:72-83 | with two slots and every open succeeding, the first file is opened twice and `file_index` stays 0 |
| PageCacheAio.CompleteKeeps | page-cache-warmer/io_operations.c:102-125 | processing the events reaped keeps the table shape, never raises `inflight` and never lowers `file_index` |
| PageCacheAio.AioLoopKeeps | page-cache-warmer/io_operations.c:60-127 | the loop keeps the table shape and `inflight <= queue_depth`, and when it ends normally `file_index` is at or past the end and nothing is in flight |
| PageCacheAio.DispatchAio | page-cache-warmer/io_operations.c:62-84 | the inner `while` loop over `fds` and `file_offsets` leaves them as `Dispatch` gives |
| PageCacheAio.CompleteAio | page-cache-warmer/io_operations.c:102-125 | the loop over the reaped events leaves the slot arrays as `CompleteEvents` gives |
| PageCacheAio.RunRoundsAio | page-cache-warmer/io_operations.c:60-127 | the outer loop follows `AioLoop` |
| PageCacheAio.WarmFilesAio | page-cache-warmer/io_operations.c:36-133 | returns 0 exactly when the context and every buffer are set up, then runs the loop; -1 otherwise; the resources acquired are all released, and none are when `io_setup` fails |
| PageCacheConfig.ConfigInit | page-cache-warmer/main.c:26-38 | the defaults: no directories, the default read size and queue depth, unlimited depth, one thread, no throttle, all modes off |
| PageCacheConfig.Clamp | page-cache-warmer/main.c:104-107 | the value is forced into `[lo, hi]`, kept when already inside |
| PageCacheConfig.ToInt32 | page-cache-warmer/main.c:110 | storing `atol`'s result in an `int` keeps it modulo 2^32 in the 32-bit range, and exactly when it fits |
| PageCacheConfig.ApplyClamped | page-cache-warmer/main.c:102-115 | every option keeps the thread count in 1..16 and the throttle in 0..7 |
| PageCacheConfig.ParseOutcome | page-cache-warmer/main.c:80-139 | 1 exactly when no option ends parsing and a directory is given, and then the directories are the operands; 0 exactly when help or version comes before any unknown option; otherwise -1; the clamps hold afterwards |
| PageCacheConfig.ParseArgs | page-cache-warmer/main.c:80-139 | the `getopt` loop yields the result of `Parse` |
| PageCacheConfig.ParseExit | page-cache-warmer/main.c:185-189 | exit status 0 exactly for help or version, 1 for an error |
| PageCacheConfig.ThrottlePriorities | page-cache-warmer/main.c:220-227 | nice 10 + throttle; the idle class exactly from throttle 4, best effort below; a level in 0..7 |
| PageCacheConfig.IoprioDecodes | page-cache-warmer/main.c:227 | the packed `ioprio` decodes back to the class and the level |
| PageCacheConfig.Pack | page-cache-warmer/main.c:227 | the shift-and-or packing equals `class * 8192 + level` |
| PageCacheConfig.ThrottleMonotone | page-cache-warmer/main.c:220-226 | a higher throttle never gives a lower nice value or a more urgent I/O priority |
| PageCacheConfig.PrioritiesRestored | page-cache-warmer/main.c:213-283 | with a throttle the work runs at the throttled nice and `ioprio`, and afterwards the original ones are back; without one only the work runs |
| PageCacheConfig.SetBoth | page-cache-warmer/main.c:215-228 | saving the priorities and then setting both leaves the new ones in effect |
| PageCacheConfig.WorkThenRestore | page-cache-warmer/main.c:276-283 | after the work, restoring puts the saved priorities back in effect |

## Left out

- Threads, mutexes, condition variables, `usleep` polling and Tokio's concurrency: every loop is modelled as one sequential run. `page-cache-warmer/filesystem.c`'s worker pool is one worker popping directories in turn, and `for_each_concurrent` processes its paths one at a time.
- Clocks, durations, throughput and progress output, logging, `syslog` and `DEBUG_LOG`: they have no effect on the results modelled. `WarmingResult.duration` is dropped.
- All kernel and library I/O: its results are inputs of the model, as described above. The bytes read are not modelled, only positions, lengths and counts.
- PageCacheFiles.DiscoverFiles: the walk is bounded by a `fuel` count of directories, because the directory tree is an input that need not be finite. The same applies to `PageCacheFiles.Drain`.
- PageCacheUring.RunRounds: the outer loop is bounded by a `rounds` count, because with arbitrary completions it need not end. `OutOfRounds` records the bound being reached. The same applies to `PageCacheAio.RunRoundsAio`.
- PageCacheFiles.ListDirectory: every `realloc` of one listing has the same outcome, given as one `reallocOk`.
- PageCacheFiles.Truncate: `strncpy` into `MAX_PATH_LENGTH` bytes with a forced terminator is modelled as keeping the first `MAX_PATH_LENGTH - 1` characters.
- PageCacheUring.DispatchOne: the `q_idx == -1` break at page-cache-warmer/io_operations.c:179 cannot be taken (`PageCacheUring.FreeSlotExists`), so this method has no branch for it. The reference function `PageCacheUring.Dispatch` keeps the branch.
- A `NULL` from `io_uring_get_sqe` is not modelled: the ring has `queue_depth` entries and at most `queue_depth` reads are prepared before a submit.
- PageCacheAio.WarmFilesAio: proves only the slot-table facts about `io_warm_files` (the table keeps its shape, `inflight` stays within `queue_depth`, and a normal end has dispatched past the last file with nothing in flight), not that every file is read to its end, because the code as written does not advance `file_index` after a successful open.
- PageCacheAio.CompleteAio: `iocbsp` is a map from position to slot, and the size read through `files[file_index]` past the end of the list is an input `beyond`, because C leaves both undefined.
- Descriptors left open when a reader's loop breaks on a submit failure are not tracked: only buffers, contexts, rings and mappings are in the resource trace.
- Fields the C code leaves uninitialised are modelled as 0.
- PageCacheFiles.FileList.Append: a failed `strdup` is not modelled. The source stores the NULL path at page-cache-warmer/filesystem.c:159 and counts the entry anyway; the model always stores the path.
- DiskIo.DispatchExtents: the disk-warmer scheduling members (`ReadPlan`, `DiskIo`, and `Bitmap` for the block size) take the stride and the bitmap's block size as positive and `queue_depth` as non-negative, because the loops are undefined otherwise. The source does not check these values. `-s` is read with `atol` (disk-warmer/main.c:79) and `-q` with `atoi`, and `stride_kb * 1024` (main.c:751) reaches `bitmap_init` (main.c:758) as the block size. A stride of 0 divides by zero at disk-warmer/main.c:230 and disk-warmer/io_operations.c:26. A negative stride moves `extent_offset` backwards in the loop at disk-warmer/io_operations.c:76-103, which then ends only when a submit fails.
- Accounting.Run: two source defects around the accounting are outside the model. `.git_ignore(!discovery_args.respect_gitignore)` (rust-cache-warmer/src/main.rs:188) inverts the gitignore flag, which changes only which entries the walker yields, and the walker's output is an input here. `Semaphore::new(args.queue_depth)` (main.rs:227) with `queue_depth == 0` makes every batch wait for a permit that never comes, whereas the model processes every batch.
- PageCacheConfig.ParseArgs: `getopt`'s tokenisation of `argv` is not modelled. The options arrive as a list of parsed values, and `atoi`/`atol` results are given as integers.
- PageCacheConfig.PrioritiesRestored: failures of `getpriority`, `ioprio_get` and the setters are not modelled, because the code does not check them either.
- disk-warmer/filesystem.c and the FIEMAP and directory code of disk-warmer/main.c:372-489: they are ioctl- and readdir-driven and are not part of this model. The extent list is an input.
- `device_open_with_direct_io` and `device_get_info`: they are `open`, `ioctl` and `lseek`. The device size and sector size are inputs.
- disk-warmer's command line, help and version output, `clap`, progress bars and the profiler in rust-cache-warmer are not part of this model.
- DiskIo.WarmExtentsUring: the fallback passes one argument too few to `io_warm_extents` (disk-warmer/io_operations.c:253-254, and 357 for `DiskIo.WarmRemainingDiskUring`). It is modelled as calling `io_warm_extents` with the arguments given; the missing one only affects debug output.
- Accounting.Run: every channel send is accepted, because the receiving loop runs until the channel closes. The walker's refused-send path is modelled on its own in `Discovery.DiscoverShape`.
- Libaio.WarmWithLibaioDirect: the results of `io_getevents` are only logged by the source, so the model does not use them. The full plan advances by the size requested, as the source does.
- The contents of the Tokio and io_uring buffers, and of the madvise mapping, are not modelled.

## Findings

| source | as written | input that shows it | evidently intended | confidence | as-written member | corrected member |
|---|---|---|---|---|---|---|
| page-cache-warmer/io_operations.c:209-214 | after the dispatch loop, `io_uring_wait_cqe` is called even when `inflight == 0`, so it waits for a completion that never comes | one or more files of which none can be opened: every `open` fails, nothing is submitted, `file_index` reaches the end with `inflight == 0`, and the loop still waits | wait only while `inflight > 0`, as the libaio reader does at page-cache-warmer/io_operations.c:95 | not executed | PageCacheUring.UnopenableFilesHang | PageCacheUring.UnopenableFilesFinishGuarded |

`PageCacheUring.WarmFilesUring` and `PageCacheUring.RunRounds` follow the loop as written and report the hang as the
stop reason `Hung`. The corrected loop `PageCacheUring.GuardedLoop` is stated beside it, and
`PageCacheUring.GuardedLoopKeeps` proves that it never hangs and ends normally only with every file dispatched and
every request free.

/**
  The libaio backend (rust-cache-warmer/src/warming/libaio.rs): only direct
  I/O is implemented.  A pool of `min(256, reads needed)` aligned buffers is
  allocated, the reads are submitted in batches of that size, each batch's
  completions are waited for (their results are only logged), and the pool
  is freed.  Without the `libaio` feature a stub reports `Unsupported`.
*/
module Libaio {
  import opened CInt
  import opened Warming
  import opened Resources
  import opened ReadLoops
  import AlignedBuffers
  import ReadPlan

  const MAX_QUEUE_DEPTH: nat := 256

  /** One submitted `rio.read_at`: the pool buffer it reads into, the offset and the length. */
  datatype Submission = Submission(buffer: nat, pos: nat, len: nat)

  /** The sparse offsets: `offset` rounded down to 4096, every 64 KiB from `offset` on, 4096 bytes each. */
  function SparsePlan(fileSize: nat, offset: nat): seq<Access>
    decreases fileSize - offset
  {
    if offset >= fileSize then []
    else [Read(AlignDown(offset, ALIGNMENT), ALIGNMENT)] + SparsePlan(fileSize, offset + SAMPLE_INTERVAL)
  }

  /**
    The full reads: `ChunkRequest(file_size - offset)` bytes at `offset`, the
    next one where that request ends (the bytes actually read are not waited
    for before the next submission).
  */
  function FullPlan(fileSize: nat, offset: nat): seq<Access>
    decreases fileSize - offset
  {
    if offset >= fileSize then []
    else [Read(offset, ChunkRequest(fileSize - offset))] + FullPlan(fileSize, offset + ChunkRequest(fileSize - offset))
  }

  function Plan(fileSize: nat, sparse: bool): seq<Access>
  {
    if sparse then SparsePlan(fileSize, 0) else FullPlan(fileSize, 0)
  }

  /** `batch_size = min(MAX_QUEUE_DEPTH, ceil(file_size / step))` with the sample interval or the chunk size as step. */
  function BatchSize(fileSize: nat, sparse: bool): nat
  {
    var unit := if sparse then SAMPLE_INTERVAL else CHUNK_SIZE;
    Min(MAX_QUEUE_DEPTH, (fileSize + unit - 1) / unit)
  }

  /** The outcome of each buffer allocation, in order, as the pool loop sees it. */
  function AllocOutcomes(count: nat, allocOk: nat -> bool): (ok: seq<bool>)
    ensures |ok| == count && forall i :: 0 <= i < count ==> ok[i] == allocOk(i)
  {
    seq(count, i requires 0 <= i < count => allocOk(i))
  }

  /**
    What `warm_with_libaio_direct(path, file_size, sparse_threshold)` does:
    the open error, `Other` when the Rio instance cannot be created,
    `OutOfMemory` after freeing what was allocated when an allocation fails,
    and otherwise success after submitting every read of the plan.
  */
  function LibaioDirect(fileSize: nat, sparseThreshold: nat, open: OpenOutcome, rioOk: bool, allocOk: nat -> bool): Attempt
  {
    match open
    case OpenFailed(e) => Attempt(Err(e), [Open(true)], [], [])
    case Opened(_) =>
      if !rioOk then Attempt(Err(Other), [Open(true)], [], [])
      else PooledRun(fileSize, Sparse(fileSize, sparseThreshold), allocOk)
  }

  /** From the buffer pool on: allocate `BatchSize` buffers, submit the plan, free the pool. */
  function PooledRun(fileSize: nat, sparse: bool, allocOk: nat -> bool): Attempt
  {
    var bs := BatchSize(fileSize, sparse);
    var f := AlignedBuffers.FirstFailure(AllocOutcomes(bs, allocOk));
    if f < bs then Attempt(Err(OutOfMemory), [Open(true)], [], AcquireBuffers(0, f) + ReleaseBuffers(0, f))
    else
      Attempt(Ok(WarmingResult(if sparse then "libaio_direct_sparse" else "libaio_direct_full", true)),
              [Open(true)], Plan(fileSize, sparse), AcquireBuffers(0, bs) + ReleaseBuffers(0, bs))
  }

  /** `libaio::warm_file`, in both builds. */
  function WarmFile(build: Build, fileSize: nat, options: WarmingOptions, open: OpenOutcome, rioOk: bool,
                    allocOk: nat -> bool): Attempt
  {
    if !LibaioCompiled(build) || !options.useDirectIo then Attempt(Err(Unsupported), [], [], [])
    else LibaioDirect(fileSize, options.sparseLargeFiles, open, rioOk, allocOk)
  }

  /** The reads a batch of submissions asks for. */
  function Requests(batch: seq<Submission>): (r: seq<Access>)
    ensures |r| == |batch|
  {
    seq(|batch|, i requires 0 <= i < |batch| => Read(batch[i].pos, batch[i].len))
  }

  function BatchRequests(batches: seq<seq<Submission>>): (r: seq<seq<Access>>)
    ensures |r| == |batches|
  {
    seq(|batches|, b requires 0 <= b < |batches| => Requests(batches[b]))
  }

  /** The `i`-th read of a batch uses pool buffer `i`. */
  predicate ByPosition(batch: seq<Submission>, buffers: seq<nat>)
  {
    |batch| <= |buffers| && forall i :: 0 <= i < |batch| ==> batch[i].buffer == buffers[i]
  }

  /** Every submission of every batch uses pool buffer `i < bs`, where `i` is its place in the batch. */
  predicate PoolIndexed(batches: seq<seq<Submission>>, bs: nat)
  {
    forall b, i :: 0 <= b < |batches| && 0 <= i < |batches[b]| ==> batches[b][i].buffer == i < bs
  }

  /** Within every batch, the `i`-th read uses pool buffer `i`. */
  predicate BuffersByPosition(batches: seq<seq<Submission>>, buffers: seq<nat>)
  {
    forall b :: 0 <= b < |batches| ==> ByPosition(batches[b], buffers)
  }

  // ---------------------------------------------------------------------
  // Properties
  // ---------------------------------------------------------------------

  /**
    The sparse plan reads 4096 bytes at every multiple of 65536 below the
    file size, in order: `ceil(file_size / 65536)` reads.
  */
  lemma {:induction false} SparsePlanAt(fileSize: nat, offset: nat)
    requires offset % SAMPLE_INTERVAL == 0
    ensures var p := SparsePlan(fileSize, offset);
      && |p| == (if offset >= fileSize then 0 else (fileSize - offset + SAMPLE_INTERVAL - 1) / SAMPLE_INTERVAL)
      && forall i :: 0 <= i < |p| ==> p[i] == Read(offset + SAMPLE_INTERVAL * i, ALIGNMENT)
    decreases fileSize - offset
  {
    if offset < fileSize {
      assert offset % ALIGNMENT == 0 by {
        assert offset == (offset / SAMPLE_INTERVAL) * 16 * ALIGNMENT;
      }
      var rest := SparsePlan(fileSize, offset + SAMPLE_INTERVAL);
      AddMultiple(offset, SAMPLE_INTERVAL, SAMPLE_INTERVAL);
      SparsePlanAt(fileSize, offset + SAMPLE_INTERVAL);
      var p := SparsePlan(fileSize, offset);
      assert p == [Read(offset, ALIGNMENT)] + rest;
      forall i | 0 < i < |p| ensures p[i] == Read(offset + SAMPLE_INTERVAL * i, ALIGNMENT) {
        assert p[i] == rest[i - 1];
      }
    }
  }

  lemma SparsePlanShape(fileSize: nat)
    ensures var p := SparsePlan(fileSize, 0);
      && |p| == (fileSize + SAMPLE_INTERVAL - 1) / SAMPLE_INTERVAL
      && forall i :: 0 <= i < |p| ==> p[i] == Read(SAMPLE_INTERVAL * i, ALIGNMENT) && SAMPLE_INTERVAL * i < fileSize
  {
    SparsePlanAt(fileSize, 0);
    var p := SparsePlan(fileSize, 0);
    forall i | 0 <= i < |p| ensures SAMPLE_INTERVAL * i < fileSize {
      assert i < (fileSize + SAMPLE_INTERVAL - 1) / SAMPLE_INTERVAL;
      assert SAMPLE_INTERVAL * (i + 1) <= fileSize + SAMPLE_INTERVAL - 1;
    }
  }

  /**
    The full plan reads the file as contiguous requests from 0: each a
    multiple of 4096 and at most 1 MiB, starting below the file size, the
    last one reaching its end; `ceil(file_size / 1 MiB)` requests.
  */
  lemma {:induction false} FullPlanAt(fileSize: nat, offset: nat)
    ensures var p := FullPlan(fileSize, offset);
      && |p| == (if offset >= fileSize then 0 else (fileSize - offset + CHUNK_SIZE - 1) / CHUNK_SIZE)
      && (|p| > 0 ==> p[0].pos == offset && p[|p| - 1].Read? && p[|p| - 1].pos + p[|p| - 1].len >= fileSize)
      && (forall i :: 0 <= i < |p| ==>
            p[i].Read? && offset <= p[i].pos < fileSize && p[i].len % ALIGNMENT == 0 && 0 < p[i].len <= CHUNK_SIZE)
      && (forall i :: 0 < i < |p| ==> p[i].pos == p[i - 1].pos + p[i - 1].len)
    decreases fileSize - offset
  {
    if offset < fileSize {
      var len := ChunkRequest(fileSize - offset);
      var rest := FullPlan(fileSize, offset + len);
      FullPlanAt(fileSize, offset + len);
      var p := FullPlan(fileSize, offset);
      assert p == [Read(offset, len)] + rest;
      if fileSize - offset > CHUNK_SIZE {
        assert len == CHUNK_SIZE;
      } else {
        assert rest == [];
      }
      forall i | 0 < i < |p| ensures p[i] == rest[i - 1] { }
    }
  }

  lemma FullPlanShape(fileSize: nat)
    ensures var p := FullPlan(fileSize, 0);
      && |p| == (fileSize + CHUNK_SIZE - 1) / CHUNK_SIZE
      && (|p| > 0 ==> p[0].pos == 0 && p[|p| - 1].Read? && p[|p| - 1].pos + p[|p| - 1].len >= fileSize)
      && (forall i :: 0 <= i < |p| ==>
            p[i].Read? && p[i].pos < fileSize && p[i].len % ALIGNMENT == 0 && 0 < p[i].len <= CHUNK_SIZE)
      && (forall i :: 0 < i < |p| ==> p[i].pos == p[i - 1].pos + p[i - 1].len)
  {
    FullPlanAt(fileSize, 0);
  }

  /**
    The pool holds `min(256, reads in the plan)` buffers: never more buffers
    than reads, at least one whenever there is something to read.
  */
  lemma PoolMatchesPlan(fileSize: nat, sparse: bool)
    ensures BatchSize(fileSize, sparse) == Min(MAX_QUEUE_DEPTH, |Plan(fileSize, sparse)|)
    ensures BatchSize(fileSize, sparse) > 0 <==> fileSize > 0
  {
    if sparse { SparsePlanShape(fileSize); } else { FullPlanShape(fileSize); }
  }

  /**
    The outcome: `Unsupported` with nothing opened iff the feature is off or
    direct I/O is not asked for; the open error; `Other` when the Rio instance
    fails; `OutOfMemory` iff an allocation of the pool fails, with what was
    allocated freed; else success with every read of the plan submitted.
    Memory is balanced on every path.
  */
  lemma WarmFileOutcome(build: Build, fileSize: nat, options: WarmingOptions, open: OpenOutcome, rioOk: bool,
                        allocOk: nat -> bool)
    ensures var a := WarmFile(build, fileSize, options, open, rioOk, allocOk);
      var sparse := Sparse(fileSize, options.sparseLargeFiles);
      var bs := BatchSize(fileSize, sparse);
      && (a.outcome == Err(Unsupported) && a.calls == [] <==> !LibaioCompiled(build) || !options.useDirectIo)
      && (LibaioCompiled(build) && options.useDirectIo ==>
            a.calls == [Open(true)] &&
            (open.OpenFailed? ==> a.outcome == Err(open.error)) &&
            (open.Opened? && !rioOk ==> a.outcome == Err(Other) && a.events == []) &&
            (open.Opened? && rioOk ==>
               (a.outcome == Err(OutOfMemory) <==> exists i :: 0 <= i < bs && !allocOk(i)) &&
               (a.outcome.Ok? <==> forall i :: 0 <= i < bs ==> allocOk(i))) &&
            (a.outcome.Ok? ==>
               a.outcome.result.success &&
               a.outcome.result.tag == (if sparse then "libaio_direct_sparse" else "libaio_direct_full") &&
               a.accesses == Plan(fileSize, sparse) &&
               a.events == AcquireBuffers(0, bs) + ReleaseBuffers(0, bs)))
      && Balanced(a.events)
  {
    var a := WarmFile(build, fileSize, options, open, rioOk, allocOk);
    var sparse := Sparse(fileSize, options.sparseLargeFiles);
    var bs := BatchSize(fileSize, sparse);
    var ok := AllocOutcomes(bs, allocOk);
    var f := AlignedBuffers.FirstFailure(ok);
    if LibaioCompiled(build) && options.useDirectIo && open.Opened? && rioOk {
      if f < bs {
        PoolBalanced(f);
      } else {
        PoolBalanced(bs);
      }
    } else {
      assert WellFormed([]) && Live([]) == {};
    }
  }

  // ---------------------------------------------------------------------
  // The batch loops
  // ---------------------------------------------------------------------

  lemma RequestsAppend(ops: seq<Submission>, s: Submission)
    ensures Requests(ops + [s]) == Requests(ops) + [Read(s.pos, s.len)]
  {
    assert Requests(ops + [s])[|ops|] == Read(s.pos, s.len);
  }

  /** A finished batch is the next chunk of what is left of the plan. */
  lemma BatchDone(batches: seq<seq<Submission>>, ops: seq<Submission>, rest0: seq<Access>, rest1: seq<Access>,
                  bs: nat, whole: seq<seq<Access>>)
    requires BatchRequests(batches) + ReadPlan.Chunks(rest0, bs) == whole
    requires Requests(ops) + rest1 == rest0 && |ops| == Min(bs, |rest0|) && |ops| > 0
    ensures BatchRequests(batches + [ops]) + ReadPlan.Chunks(rest1, bs) == whole
  {
    var done, batch, after := BatchRequests(batches), Requests(ops), ReadPlan.Chunks(rest1, bs);
    assert ReadPlan.Chunks(rest0, bs) == [batch] + after by {
      ReadPlan.ChunksStep(rest0, batch, rest1, bs);
    }
    assert BatchRequests(batches + [ops]) == done + [batch] by {
      BatchRequestsSnoc(batches, ops);
    }
    ReadPlan.AppendAssoc(done, [batch], after);
  }

  lemma BatchRequestsSnoc(batches: seq<seq<Submission>>, ops: seq<Submission>)
    ensures BatchRequests(batches + [ops]) == BatchRequests(batches) + [Requests(ops)]
  {
    var l, r := BatchRequests(batches + [ops]), BatchRequests(batches) + [Requests(ops)];
    assert |l| == |r|;
    forall b | 0 <= b < |l| ensures l[b] == r[b] {
      if b < |batches| {
        assert (batches + [ops])[b] == batches[b];
      }
    }
  }

  lemma BuffersAppend(batches: seq<seq<Submission>>, ops: seq<Submission>, buffers: seq<nat>)
    requires BuffersByPosition(batches, buffers) && ByPosition(ops, buffers)
    ensures BuffersByPosition(batches + [ops], buffers)
  {
    forall b | 0 <= b < |batches + [ops]| ensures ByPosition((batches + [ops])[b], buffers) {
      if b < |batches| {
        assert (batches + [ops])[b] == batches[b];
      }
    }
  }

  /** `buffer_idx = i % buffers.len()` is `i` itself while `i` counts the batch's reads. */
  lemma BufferIndex(operations: seq<Submission>, s: Submission, buffers: seq<nat>, i: nat)
    requires i < |buffers| && |operations| == i && s.buffer == buffers[i % |buffers|]
    requires ByPosition(operations, buffers)
    ensures ByPosition(operations + [s], buffers)
  {
    assert i % |buffers| == i;
    forall j | 0 <= j < i + 1 ensures (operations + [s])[j].buffer == buffers[j] {
      if j < i {
        assert (operations + [s])[j] == operations[j];
      }
    }
  }

  /** One step of a batch: the request at `offset` is the head of what is left of the plan. */
  lemma SparseStep(fileSize: nat, offset: nat, ops: seq<Submission>, s: Submission, rest0: seq<Access>)
    requires offset < fileSize && s == Submission(s.buffer, AlignDown(offset, ALIGNMENT), ALIGNMENT)
    requires Requests(ops) + SparsePlan(fileSize, offset) == rest0
    ensures Requests(ops + [s]) + SparsePlan(fileSize, offset + SAMPLE_INTERVAL) == rest0
  {
    RequestsAppend(ops, s);
    var rest := SparsePlan(fileSize, offset + SAMPLE_INTERVAL);
    assert SparsePlan(fileSize, offset) == [Read(s.pos, s.len)] + rest;
    ReadPlan.AppendAssoc(Requests(ops), [Read(s.pos, s.len)], rest);
  }

  /** One batch of the sparse branch's inner `for i in 0..batch_size` loop, from `offset`. */
  method SparseBatch(fileSize: nat, buffers: seq<nat>, offset0: nat) returns (operations: seq<Submission>, offset: nat)
    requires offset0 < fileSize && |buffers| > 0
    ensures Requests(operations) + SparsePlan(fileSize, offset) == SparsePlan(fileSize, offset0)
    ensures |operations| == Min(|buffers|, |SparsePlan(fileSize, offset0)|) && |operations| > 0
    ensures ByPosition(operations, buffers)
    ensures offset > offset0
  {
    ghost var rest0 := SparsePlan(fileSize, offset0);
    operations := [];
    offset := offset0;
    var i := 0;
    while i < |buffers|
      invariant 0 <= i <= |buffers| && |operations| == i
      invariant Requests(operations) + SparsePlan(fileSize, offset) == rest0
      invariant ByPosition(operations, buffers)
      invariant offset >= offset0 && (i == 0 <==> offset == offset0)
      decreases |buffers| - i
    {
      if offset >= fileSize {
        break;
      }
      var alignedOffset := (offset / ALIGNMENT) * ALIGNMENT;
      var bufferIdx := i % |buffers|;
      var s := Submission(buffers[bufferIdx], alignedOffset, ALIGNMENT);
      SparseStep(fileSize, offset, operations, s, rest0);
      BufferIndex(operations, s, buffers, i);
      operations := operations + [s];
      offset := offset + SAMPLE_INTERVAL;
      i := i + 1;
    }
    assert offset >= fileSize ==> SparsePlan(fileSize, offset) == [];
  }

  /** The submission loop of the sparse branch. */
  method SparseBatches(fileSize: nat, buffers: seq<nat>) returns (batches: seq<seq<Submission>>)
    requires |buffers| == BatchSize(fileSize, true)
    ensures BatchRequests(batches) == ReadPlan.Chunks(SparsePlan(fileSize, 0), |buffers|)
    ensures BuffersByPosition(batches, buffers)
  {
    PoolMatchesPlan(fileSize, true);
    ghost var whole := ReadPlan.Chunks(SparsePlan(fileSize, 0), |buffers|);
    batches := [];
    var offset: nat := 0;
    while offset < fileSize
      invariant BatchRequests(batches) + ReadPlan.Chunks(SparsePlan(fileSize, offset), |buffers|) == whole
      invariant BuffersByPosition(batches, buffers)
      decreases fileSize - offset
    {
      var operations, next := SparseBatch(fileSize, buffers, offset);
      BatchDone(batches, operations, SparsePlan(fileSize, offset), SparsePlan(fileSize, next), |buffers|, whole);
      BuffersAppend(batches, operations, buffers);
      batches := batches + [operations];
      offset := next;
    }
  }

  lemma FullStep(fileSize: nat, offset: nat, ops: seq<Submission>, s: Submission, rest0: seq<Access>)
    requires offset < fileSize && s == Submission(s.buffer, offset, ChunkRequest(fileSize - offset))
    requires Requests(ops) + FullPlan(fileSize, offset) == rest0
    ensures Requests(ops + [s]) + FullPlan(fileSize, offset + s.len) == rest0
  {
    RequestsAppend(ops, s);
    var rest := FullPlan(fileSize, offset + s.len);
    assert FullPlan(fileSize, offset) == [Read(s.pos, s.len)] + rest;
    ReadPlan.AppendAssoc(Requests(ops), [Read(s.pos, s.len)], rest);
  }

  /** One batch of the full branch's inner `for i in 0..batch_size` loop, from `offset`. */
  method FullBatch(fileSize: nat, buffers: seq<nat>, offset0: nat) returns (operations: seq<Submission>, offset: nat)
    requires offset0 < fileSize && |buffers| > 0
    ensures Requests(operations) + FullPlan(fileSize, offset) == FullPlan(fileSize, offset0)
    ensures |operations| == Min(|buffers|, |FullPlan(fileSize, offset0)|) && |operations| > 0
    ensures ByPosition(operations, buffers)
    ensures offset > offset0
  {
    ghost var rest0 := FullPlan(fileSize, offset0);
    operations := [];
    offset := offset0;
    var i := 0;
    while i < |buffers|
      invariant 0 <= i <= |buffers| && |operations| == i
      invariant Requests(operations) + FullPlan(fileSize, offset) == rest0
      invariant ByPosition(operations, buffers)
      invariant offset >= offset0 && (i == 0 <==> offset == offset0)
      decreases |buffers| - i
    {
      if offset >= fileSize {
        break;
      }
      var actualReadSize := ChunkRequest(fileSize - offset);
      var bufferIdx := i % |buffers|;
      var s := Submission(buffers[bufferIdx], offset, actualReadSize);
      FullStep(fileSize, offset, operations, s, rest0);
      BufferIndex(operations, s, buffers, i);
      operations := operations + [s];
      offset := offset + actualReadSize;
      i := i + 1;
    }
    assert offset >= fileSize ==> FullPlan(fileSize, offset) == [];
  }

  /** The submission loop of the full branch. */
  method FullBatches(fileSize: nat, buffers: seq<nat>) returns (batches: seq<seq<Submission>>)
    requires |buffers| == BatchSize(fileSize, false)
    ensures BatchRequests(batches) == ReadPlan.Chunks(FullPlan(fileSize, 0), |buffers|)
    ensures BuffersByPosition(batches, buffers)
  {
    PoolMatchesPlan(fileSize, false);
    ghost var whole := ReadPlan.Chunks(FullPlan(fileSize, 0), |buffers|);
    batches := [];
    var offset: nat := 0;
    while offset < fileSize
      invariant BatchRequests(batches) + ReadPlan.Chunks(FullPlan(fileSize, offset), |buffers|) == whole
      invariant BuffersByPosition(batches, buffers)
      decreases fileSize - offset
    {
      var operations, next := FullBatch(fileSize, buffers, offset);
      BatchDone(batches, operations, FullPlan(fileSize, offset), FullPlan(fileSize, next), |buffers|, whole);
      BuffersAppend(batches, operations, buffers);
      batches := batches + [operations];
      offset := next;
    }
  }

  /** The pool allocation fails exactly when some `posix_memalign` fails, first at `FirstFailure`. */
  lemma AllocationFails(bs: nat, allocOk: nat -> bool)
    ensures var f := AlignedBuffers.FirstFailure(AllocOutcomes(bs, allocOk));
      (forall i :: 0 <= i < bs ==> AllocOutcomes(bs, allocOk)[i]) <==> f == bs
  {
    var ok := AllocOutcomes(bs, allocOk);
    var f := AlignedBuffers.FirstFailure(ok);
    if f < bs {
      assert !ok[f];
    }
  }

  /** The submission loops with buffers `0..batch_size`, indexed by position in the batch. */
  method SubmitAll(fileSize: nat, sparse: bool) returns (batches: seq<seq<Submission>>)
    ensures BatchRequests(batches) == ReadPlan.Chunks(Plan(fileSize, sparse), BatchSize(fileSize, sparse))
    ensures PoolIndexed(batches, BatchSize(fileSize, sparse))
  {
    var batchSize := BatchSize(fileSize, sparse);
    var buffers := seq(batchSize, i => i);
    if sparse {
      batches := SparseBatches(fileSize, buffers);
    } else {
      batches := FullBatches(fileSize, buffers);
    }
    forall b, i | 0 <= b < |batches| && 0 <= i < |batches[b]|
      ensures batches[b][i].buffer == i < batchSize
    {
      assert ByPosition(batches[b], buffers);
    }
  }

  /** The part of `warm_with_libaio_direct` from the allocation of the buffer pool to its release. */
  method WithBufferPool(fileSize: nat, sparse: bool, allocOk: nat -> bool)
    returns (a: Attempt, batches: seq<seq<Submission>>)
    ensures a == PooledRun(fileSize, sparse, allocOk)
    ensures a.outcome.Ok? ==>
      && BatchRequests(batches) == ReadPlan.Chunks(a.accesses, BatchSize(fileSize, sparse))
      && PoolIndexed(batches, BatchSize(fileSize, sparse))
  {
    batches := [];
    var batchSize := BatchSize(fileSize, sparse);
    AllocationFails(batchSize, allocOk);
    var rc, events := AlignedBuffers.AllocateAlignedBuffers(batchSize, AllocOutcomes(batchSize, allocOk));
    if rc != 0 {
      return Attempt(Err(OutOfMemory), [Open(true)], [], events), batches;
    }
    batches := SubmitAll(fileSize, sparse);
    var freed := AlignedBuffers.FreeAlignedBuffers(batchSize);
    a := Attempt(Ok(WarmingResult(if sparse then "libaio_direct_sparse" else "libaio_direct_full", true)),
                 [Open(true)], Plan(fileSize, sparse), events + freed);
  }

  /** `warm_with_libaio_direct`; `batches` are the submissions, batch by batch. */
  method WarmWithLibaioDirect(fileSize: nat, sparseThreshold: nat, open: OpenOutcome, rioOk: bool,
                              allocOk: nat -> bool)
    returns (a: Attempt, batches: seq<seq<Submission>>)
    ensures a == LibaioDirect(fileSize, sparseThreshold, open, rioOk, allocOk)
    ensures a.outcome.Ok? ==>
      var bs := BatchSize(fileSize, Sparse(fileSize, sparseThreshold));
      && BatchRequests(batches) == ReadPlan.Chunks(a.accesses, bs)
      && PoolIndexed(batches, bs)
  {
    batches := [];
    if open.OpenFailed? {
      return Attempt(Err(open.error), [Open(true)], [], []), batches;
    }
    if !rioOk {
      return Attempt(Err(Other), [Open(true)], [], []), batches;
    }
    var sparse := sparseThreshold > 0 && fileSize > sparseThreshold;
    a, batches := WithBufferPool(fileSize, sparse, allocOk);
  }
}

/**
  The I/O loops of disk-warmer (disk-warmer/io_operations.c): phase 1 reads
  the extents of the files, phase 2 the rest of the device, each with libaio
  or with io_uring.  The kernel is not modelled: every call into it
  (`io_setup`, `posix_memalign`, `io_submit`, `io_getevents`,
  `io_uring_queue_init`, `io_uring_get_sqe`, `io_uring_submit`,
  `io_uring_wait_cqe`) is an outcome taken from an environment value.  Each
  method is proved to issue exactly the batches of the schedules in
  `ReadPlan`, to mark exactly the reads it issued in the bitmap, and to
  release every resource it acquires.
*/
module DiskIo {
  import opened CInt
  import opened Resources
  import opened AlignedBuffers
  import opened Extents
  import opened Bitmap
  import opened ReadPlan

  /**
    Outcomes of the libaio calls: `io_setup`, the i-th `posix_memalign`, and
    for batch b the results of `io_submit` and `io_getevents`.
  */
  datatype AioEnv = AioEnv(setupOk: bool, memalignOk: seq<bool>, submitResult: nat -> int,
                           eventsResult: nat -> int)

  /**
    Outcomes of the io_uring calls: the SQPOLL and the plain
    `io_uring_queue_init`, the i-th `posix_memalign`, for batch b the number
    of submission entries `io_uring_get_sqe` hands out, the result of
    `io_uring_submit` and whether the i-th `io_uring_wait_cqe` succeeds;
    `fallback` is what libaio does when both initialisations fail.
  */
  datatype UringEnv = UringEnv(sqpollInitOk: bool, initOk: bool, memalignOk: seq<bool>, sqeLimit: nat -> nat,
                               submitResult: nat -> int, waitOk: (nat, nat) -> bool, fallback: AioEnv)

  predicate AllocOk(memalignOk: seq<bool>)
  {
    forall i :: 0 <= i < |memalignOk| ==> memalignOk[i]
  }

  /** One of the two `io_uring_queue_init` calls succeeded. */
  predicate RingOk(env: UringEnv)
  {
    env.sqpollInitOk || env.initOk
  }

  /** Extents come from FIEMAP, whose physical offsets are unsigned. */
  predicate PhysicalOffsetsNonNegative(list: seq<Extent>)
  {
    forall i :: 0 <= i < |list| ==> list[i].physicalOffset >= 0
  }

  predicate NonNegative(s: seq<int>)
  {
    forall i :: 0 <= i < |s| ==> s[i] >= 0
  }

  // ---------------------------------------------------------------------
  // Resource traces of one warming call
  // ---------------------------------------------------------------------

  /** Context, buffer pool, then `io_destroy`/`io_uring_queue_exit` and `free_aligned_buffers`. */
  function Session(n: nat): seq<Event>
  {
    [Acquire(IoContext)] + AcquireBuffers(0, n) + [Release(IoContext)] + ReleaseBuffers(0, n)
  }

  /** The context is torn down after the pool allocation failed at buffer f. */
  function AbortedSession(f: nat): seq<Event>
  {
    [Acquire(IoContext)] + AcquireBuffers(0, f) + ReleaseBuffers(0, f) + [Release(IoContext)]
  }

  lemma ContextOpened()
    ensures WellFormed([Acquire(IoContext)]) && Live([Acquire(IoContext)]) == {IoContext}
  {
    ReplayAppend([], Acquire(IoContext));
    assert [] + [Acquire(IoContext)] == [Acquire(IoContext)];
  }

  lemma SessionBalanced(n: nat)
    ensures Balanced(Session(n))
  {
    var t0 := [Acquire(IoContext)];
    ContextOpened();
    ReplayAcquireBuffers(t0, 0, n);
    var t1 := t0 + AcquireBuffers(0, n);
    assert IoContext !in BufferSet(0, n);
    ReplayAppend(t1, Release(IoContext));
    var t2 := t1 + [Release(IoContext)];
    assert Live(t2) == BufferSet(0, n);
    ReplayReleaseBuffers(t2, 0, n);
  }

  lemma AbortedSessionBalanced(f: nat)
    ensures Balanced(AbortedSession(f))
  {
    var t0 := [Acquire(IoContext)];
    ContextOpened();
    ReplayAcquireBuffers(t0, 0, f);
    var t1 := t0 + AcquireBuffers(0, f);
    ReplayReleaseBuffers(t1, 0, f);
    var t2 := t1 + ReleaseBuffers(0, f);
    assert IoContext !in BufferSet(0, f);
    assert Live(t2) == {IoContext};
    ReplayAppend(t2, Release(IoContext));
  }

  lemma AbortedTrace(allocTrace: seq<Event>, f: nat)
    requires allocTrace == AcquireBuffers(0, f) + ReleaseBuffers(0, f)
    ensures Balanced([Acquire(IoContext)] + allocTrace + [Release(IoContext)])
  {
    assert [Acquire(IoContext)] + allocTrace + [Release(IoContext)] == AbortedSession(f);
    AbortedSessionBalanced(f);
  }

  // ---------------------------------------------------------------------
  // Batching steps
  // ---------------------------------------------------------------------

  lemma UringStep<T>(rest0: seq<T>, batch: seq<T>, rest1: seq<T>, queueDepth: nat, sqeLimit: nat -> nat, b: nat)
    requires batch + rest1 == rest0 && |batch| == Min(Min(queueDepth, sqeLimit(b)), |rest0|) && |batch| > 0
    ensures UringBatches(rest0, queueDepth, sqeLimit, b) == [batch] + UringBatches(rest1, queueDepth, sqeLimit, b + 1)
  {
    assert rest0[..|batch|] == batch;
    assert rest0[|batch|..] == rest1;
  }

  lemma AioStep<T>(batch: seq<T>, more: seq<seq<T>>, submitResult: nat -> int, eventsResult: nat -> int, b: nat)
    ensures AioBatches([batch] + more, submitResult, eventsResult, b) ==
      if AioBatchOk(|batch|, submitResult(b), eventsResult(b)) then [batch] + AioBatches(more, submitResult, eventsResult, b + 1)
      else [batch]
  {
    assert ([batch] + more)[0] == batch;
    assert ([batch] + more)[1..] == more;
  }

  /** A batch the kernel took whole: the loop goes on with the rest of the schedule. */
  lemma AioAdvance<T>(plan: seq<T>, batches: seq<seq<T>>, rest0: seq<T>, batch: seq<T>, rest1: seq<T>,
                      queueDepth: nat, submitResult: nat -> int, eventsResult: nat -> int)
    requires AioBatches(Chunks(plan, queueDepth), submitResult, eventsResult, 0) ==
      batches + AioBatches(Chunks(rest0, queueDepth), submitResult, eventsResult, |batches|)
    requires batch + rest1 == rest0 && |batch| == Min(queueDepth, |rest0|) && |batch| > 0
    requires AioBatchOk(|batch|, submitResult(|batches|), eventsResult(|batches|))
    ensures AioBatches(Chunks(plan, queueDepth), submitResult, eventsResult, 0) ==
      (batches + [batch]) + AioBatches(Chunks(rest1, queueDepth), submitResult, eventsResult, |batches + [batch]|)
  {
    var b := |batches|;
    ChunksStep(rest0, batch, rest1, queueDepth);
    AioStep(batch, Chunks(rest1, queueDepth), submitResult, eventsResult, b);
    AppendAssoc(batches, [batch], AioBatches(Chunks(rest1, queueDepth), submitResult, eventsResult, b + 1));
  }

  /** A batch that fell short is the last one. */
  lemma AioStop<T>(plan: seq<T>, batches: seq<seq<T>>, rest0: seq<T>, batch: seq<T>, rest1: seq<T>,
                   queueDepth: nat, submitResult: nat -> int, eventsResult: nat -> int)
    requires AioBatches(Chunks(plan, queueDepth), submitResult, eventsResult, 0) ==
      batches + AioBatches(Chunks(rest0, queueDepth), submitResult, eventsResult, |batches|)
    requires batch + rest1 == rest0 && |batch| == Min(queueDepth, |rest0|) && |batch| > 0
    requires !AioBatchOk(|batch|, submitResult(|batches|), eventsResult(|batches|))
    ensures AioBatches(Chunks(plan, queueDepth), submitResult, eventsResult, 0) == batches + [batch]
  {
    ChunksStep(rest0, batch, rest1, queueDepth);
    AioStep(batch, Chunks(rest1, queueDepth), submitResult, eventsResult, |batches|);
  }

  /** The io_uring loop goes on with the rest of the schedule after a non-empty batch. */
  lemma UringAdvance<T>(plan: seq<T>, batches: seq<seq<T>>, rest0: seq<T>, batch: seq<T>, rest1: seq<T>,
                        queueDepth: nat, sqeLimit: nat -> nat)
    requires UringBatches(plan, queueDepth, sqeLimit, 0) ==
      batches + UringBatches(rest0, queueDepth, sqeLimit, |batches|)
    requires batch + rest1 == rest0 && |batch| == Min(Min(queueDepth, sqeLimit(|batches|)), |rest0|) && |batch| > 0
    ensures UringBatches(plan, queueDepth, sqeLimit, 0) ==
      (batches + [batch]) + UringBatches(rest1, queueDepth, sqeLimit, |batches + [batch]|)
  {
    var b := |batches|;
    UringStep(rest0, batch, rest1, queueDepth, sqeLimit, b);
    AppendAssoc(batches, [batch], UringBatches(rest1, queueDepth, sqeLimit, b + 1));
  }

  /** The bitmap after one more batch has been marked. */
  lemma MarkBatch(bytes: seq<bv8>, batches: seq<seq<int>>, batch: seq<int>, readSize: int, diskSize: nat,
                  blockSize: nat)
    requires blockSize > 0 && NonNegative(Flatten(batches)) && NonNegative(batch)
    ensures NonNegative(Flatten(batches + [batch]))
    ensures MarkReads(MarkReads(bytes, Flatten(batches), readSize, diskSize, blockSize), batch, readSize, diskSize,
                      blockSize) == MarkReads(bytes, Flatten(batches + [batch]), readSize, diskSize, blockSize)
  {
    FlattenSnoc(batches, batch);
    MarkReadsAppend(bytes, Flatten(batches), batch, readSize, diskSize, blockSize);
  }

  /** An extent with nothing left is passed over. */
  lemma SkipStep(list: seq<Extent>, index: nat, off: nat, stride: nat, batch: seq<int>, plan: seq<int>)
    requires stride > 0 && index < |list| && list[index].length - off <= 0
    requires batch + Rest(list, index, off, stride) == plan
    ensures batch + Rest(list, index + 1, 0, stride) == plan
  {
    assert Rest(list, index, off, stride) == Rest(list, index + 1, 0, stride);
  }

  /** A read of an extent with bytes left; the next one comes one stride further on. */
  lemma IssueMoreStep(list: seq<Extent>, index: nat, off: nat, stride: nat, x: int, batch: seq<int>, plan: seq<int>)
    requires stride > 0 && index < |list| && list[index].length - off > 0 && x == list[index].physicalOffset + off
    requires batch + Rest(list, index, off, stride) == plan
    ensures (batch + [x]) + Rest(list, index, off + stride, stride) == plan
  {
    assert Rest(list, index, off, stride) == [x] + Rest(list, index, off + stride, stride);
    AppendAssoc(batch, [x], Rest(list, index, off + stride, stride));
  }

  /** The last read of an extent; the next one comes from the next extent. */
  lemma IssueLastStep(list: seq<Extent>, index: nat, off: nat, stride: nat, x: int, batch: seq<int>, plan: seq<int>)
    requires stride > 0 && index < |list| && list[index].length - off > 0 && off + stride >= list[index].length
    requires x == list[index].physicalOffset + off
    requires batch + Rest(list, index, off, stride) == plan
    ensures (batch + [x]) + Rest(list, index + 1, 0, stride) == plan
  {
    IssueMoreStep(list, index, off, stride, x, batch, plan);
    assert Rest(list, index, off + stride, stride) == Rest(list, index + 1, 0, stride);
  }

  /** An extent with bytes left has a read to come. */
  lemma RestHead(list: seq<Extent>, index: nat, off: nat, stride: nat)
    requires stride > 0 && index < |list| && list[index].length - off > 0
    ensures |Rest(list, index, off, stride)| > 0
  {
  }

  lemma MarkReadsSnoc(bytes: seq<bv8>, batch: seq<int>, x: nat, readSize: int, diskSize: nat, blockSize: nat)
    requires blockSize > 0 && NonNegative(batch)
    ensures NonNegative(batch + [x])
    ensures MarkReads(bytes, batch + [x], readSize, diskSize, blockSize) ==
      MarkRangeBytes(MarkReads(bytes, batch, readSize, diskSize, blockSize), diskSize, blockSize, x, readSize)
  {
    assert (batch + [x])[..|batch|] == batch;
  }

  lemma FlattenSnoc<T>(batches: seq<seq<T>>, batch: seq<T>)
    ensures Flatten(batches + [batch]) == Flatten(batches) + batch
  {
    FlattenAppend(batches, [batch]);
    assert [batch][1..] == [];
    assert Flatten([batch]) == batch + Flatten([]);
  }

  // ---------------------------------------------------------------------
  // calculate_total_strides
  // ---------------------------------------------------------------------

  /** `calculate_total_strides`: the sum of the per-extent stride counts, in `unsigned long long`. */
  method CalculateTotalStrides(list: seq<Extent>, stride: nat) returns (total: nat)
    requires stride > 0
    ensures total == TotalStrides(list, stride) % U64_MODULUS
  {
    total := 0;
    var i := 0;
    while i < |list|
      invariant 0 <= i <= |list|
      invariant total == StridesUpTo(list, i, stride) % U64_MODULUS
    {
      var strides := Div(list[i].length + stride - 1, stride);
      StridesStep(list, i, stride, total);
      total := (total + strides) % U64_MODULUS;
      i := i + 1;
    }
  }

  /** Adding one extent's stride count to the wrapped sum of the ones before it. */
  lemma StridesStep(list: seq<Extent>, i: nat, stride: nat, total: int)
    requires stride > 0 && i < |list| && total == StridesUpTo(list, i, stride) % U64_MODULUS
    ensures (total + Div(list[i].length + stride - 1, stride)) % U64_MODULUS == StridesUpTo(list, i + 1, stride) % U64_MODULUS
  {
    ModAdd(StridesUpTo(list, i, stride), Div(list[i].length + stride - 1, stride), U64_MODULUS);
  }

  lemma ModAdd(a: int, b: int, m: int)
    requires m > 0
    ensures (a % m + b) % m == (a + b) % m
  {
    var q := a / m;
    assert a == q * m + a % m;
    assert a + b == (a % m + b) + q * m;
    ModShiftBy(a % m + b, q, m);
  }

  lemma ModShiftBy(x: int, q: int, m: int)
    requires m > 0
    ensures (x + q * m) % m == x % m
  {
    var r := x % m;
    var p := x / m;
    assert x + q * m == (p + q) * m + r;
    DivUnique(x + q * m, m, p + q, r);
  }

  // ---------------------------------------------------------------------
  // Phase 1: the extents
  // ---------------------------------------------------------------------

  /** `if (bitmap) bitmap_mark_range(bitmap, read_offset, read_size)` for the next read of a batch. */
  method MarkIssued(bitmap: WarmedBitmap?, ghost bytes0: seq<bv8>, batch: seq<int>, readOffset: nat, readSize: int)
    requires NonNegative(batch)
    requires bitmap != null ==> (bitmap.Valid() &&
      bitmap.Bytes() == MarkReads(bytes0, batch, readSize, bitmap.diskSize, bitmap.blockSize))
    modifies if bitmap != null then {bitmap.data} else {}
    ensures NonNegative(batch + [readOffset])
    ensures bitmap != null ==> (bitmap.Valid() &&
      bitmap.Bytes() == MarkReads(bytes0, batch + [readOffset], readSize, bitmap.diskSize, bitmap.blockSize))
  {
    if bitmap != null {
      MarkReadsSnoc(bytes0, batch, readOffset, readSize, bitmap.diskSize, bitmap.blockSize);
      bitmap.MarkRange(readOffset, readSize);
    } else {
      MarkReadsSnoc([], batch, readOffset, readSize, 0, 1);
    }
  }

  /**
    The inner loop of `io_warm_extents` and `io_warm_extents_uring`: from
    position (`index0`, `off0`) it takes the next reads of the extent list,
    at most `queueDepth` of them and, for io_uring, at most `sqeAvailable`
    (when `io_uring_get_sqe` returns NULL it stops), skipping used-up
    extents, and marks each issued read of `readSize` bytes in the bitmap.
    libaio has no such limit and passes `queueDepth` again.
  */
  method PrepareExtentBatch(list: seq<Extent>, index0: nat, off0: nat, stride: nat, readSize: int,
                            queueDepth: nat, sqeAvailable: nat, bitmap: WarmedBitmap?)
    returns (batch: seq<int>, index: nat, off: nat)
    requires stride > 0 && index0 <= |list| && PhysicalOffsetsNonNegative(list)
    requires bitmap != null ==> bitmap.Valid()
    modifies if bitmap != null then {bitmap.data} else {}
    ensures index <= |list|
    ensures batch + Rest(list, index, off, stride) == Rest(list, index0, off0, stride)
    ensures |batch| == Min(Min(queueDepth, sqeAvailable), |Rest(list, index0, off0, stride)|)
    ensures NonNegative(batch)
    ensures bitmap != null ==> (bitmap.Valid() &&
      bitmap.Bytes() == MarkReads(old(bitmap.Bytes()), batch, readSize, bitmap.diskSize, bitmap.blockSize))
  {
    batch, index, off := [], index0, off0;
    ghost var plan := Rest(list, index0, off0, stride);
    while |batch| < queueDepth && index < |list|
      invariant index <= |list|
      invariant batch + Rest(list, index, off, stride) == plan
      invariant |batch| <= Min(queueDepth, sqeAvailable)
      invariant NonNegative(batch)
      invariant bitmap != null ==> (bitmap.Valid() &&
        bitmap.Bytes() == MarkReads(old(bitmap.Bytes()), batch, readSize, bitmap.diskSize, bitmap.blockSize))
      decreases |plan| - |batch|, |list| - index
    {
      var extent := list[index];
      var remaining := extent.length - off;
      if remaining <= 0 {
        SkipStep(list, index, off, stride, batch, plan);
        index, off := index + 1, 0;
        assert batch + Rest(list, index, off, stride) == plan;
        continue;
      }
      if |batch| >= sqeAvailable {
        RestHead(list, index, off, stride);
        break;
      }
      MarkIssued(bitmap, old(if bitmap != null then bitmap.Bytes() else []), batch, extent.physicalOffset + off, readSize);
      batch, index, off := IssueRead(list, index, off, stride, batch, plan);
    }
  }

  /** One issued read of the inner loop: it moves one stride on, to the next extent when this one is used up. */
  method IssueRead(list: seq<Extent>, index0: nat, off0: nat, stride: nat, batch0: seq<int>, ghost plan: seq<int>)
    returns (batch: seq<int>, index: nat, off: nat)
    requires stride > 0 && index0 < |list| && list[index0].length - off0 > 0
    requires batch0 + Rest(list, index0, off0, stride) == plan
    ensures index <= |list| && batch == batch0 + [list[index0].physicalOffset + off0]
    ensures batch + Rest(list, index, off, stride) == plan
  {
    var extent := list[index0];
    var readOffset := extent.physicalOffset + off0;
    var next := off0 + stride;
    batch := batch0 + [readOffset];
    if next >= extent.length {
      index, off := index0 + 1, 0;
      IssueLastStep(list, index0, off0, stride, readOffset, batch0, plan);
    } else {
      index, off := index0, next;
      IssueMoreStep(list, index0, off0, stride, readOffset, batch0, plan);
    }
  }

  /**
    The outer loop of `io_warm_extents`, once the context and the buffers
    are set up: batch after batch of `ExtentReads`, stopping after the first
    batch whose `io_submit` or `io_getevents` result falls short.
  */
  method DispatchExtents(list: seq<Extent>, bitmap: WarmedBitmap?, readSize: int, stride: nat, queueDepth: nat,
                         submitResult: nat -> int, eventsResult: nat -> int)
    returns (batches: seq<seq<int>>, totalReads: nat)
    requires stride > 0 && PhysicalOffsetsNonNegative(list)
    requires bitmap != null ==> bitmap.Valid()
    modifies if bitmap != null then {bitmap.data} else {}
    ensures batches == AioBatches(Chunks(ExtentReads(list, stride), queueDepth), submitResult, eventsResult, 0)
    ensures totalReads == |Flatten(batches)|
    ensures NonNegative(Flatten(batches))
    ensures bitmap != null ==> (bitmap.Valid() &&
      bitmap.Bytes() == MarkReads(old(bitmap.Bytes()), Flatten(batches), readSize, bitmap.diskSize, bitmap.blockSize))
  {
    batches, totalReads := [], 0;
    ghost var plan := ExtentReads(list, stride);
    var index: nat, off: nat := 0, 0;
    RestStart(list, stride);
    while index < |list|
      invariant index <= |list|
      invariant AioBatches(Chunks(plan, queueDepth), submitResult, eventsResult, 0) ==
        batches + AioBatches(Chunks(Rest(list, index, off, stride), queueDepth), submitResult, eventsResult, |batches|)
      invariant totalReads == |Flatten(batches)|
      invariant NonNegative(Flatten(batches))
      invariant bitmap != null ==> (bitmap.Valid() &&
        bitmap.Bytes() == MarkReads(old(bitmap.Bytes()), Flatten(batches), readSize, bitmap.diskSize, bitmap.blockSize))
      decreases |Rest(list, index, off, stride)|
    {
      ghost var rest0 := Rest(list, index, off, stride);
      var batch;
      batch, index, off := PrepareExtentBatch(list, index, off, stride, readSize, queueDepth, queueDepth, bitmap);
      ghost var rest1 := Rest(list, index, off, stride);
      if |batch| == 0 {
        assert Chunks(rest0, queueDepth) == [];
        break;
      }
      var b := |batches|;
      if bitmap != null {
        MarkBatch(old(bitmap.Bytes()), batches, batch, readSize, bitmap.diskSize, bitmap.blockSize);
      } else {
        MarkBatch([], batches, batch, readSize, 0, 1);
      }
      FlattenSnoc(batches, batch);
      if !AioBatchOk(|batch|, submitResult(b), eventsResult(b)) {
        AioStop(plan, batches, rest0, batch, rest1, queueDepth, submitResult, eventsResult);
        batches, totalReads := batches + [batch], totalReads + |batch|;
        break;
      }
      AioAdvance(plan, batches, rest0, batch, rest1, queueDepth, submitResult, eventsResult);
      batches, totalReads := batches + [batch], totalReads + |batch|;
    }
  }

  /**
    `io_warm_extents` (libaio).  It fails (-1) when `io_setup` or the buffer
    pool fails and otherwise returns 0 whatever happens to the batches: it
    issues the reads of `ExtentReads` in batches of `queueDepth` and stops
    after the first batch whose `io_submit` or `io_getevents` falls short.
  */
  method WarmExtents(list: seq<Extent>, bitmap: WarmedBitmap?, readSize: int, stride: nat, queueDepth: nat,
                     env: AioEnv)
    returns (rc: int, batches: seq<seq<int>>, totalReads: nat, trace: seq<Event>)
    requires stride > 0 && |env.memalignOk| == queueDepth && PhysicalOffsetsNonNegative(list)
    requires bitmap != null ==> bitmap.Valid()
    modifies if bitmap != null then {bitmap.data} else {}
    ensures rc == 0 || rc == -1
    ensures rc == 0 <==> env.setupOk && AllocOk(env.memalignOk)
    ensures rc == 0 ==>
      batches == AioBatches(Chunks(ExtentReads(list, stride), queueDepth), env.submitResult, env.eventsResult, 0)
    ensures rc == -1 ==> batches == []
    ensures totalReads == |Flatten(batches)|
    ensures NonNegative(Flatten(batches))
    ensures bitmap != null ==> (bitmap.Valid() &&
      bitmap.Bytes() == MarkReads(old(bitmap.Bytes()), Flatten(batches), readSize, bitmap.diskSize, bitmap.blockSize))
    ensures Balanced(trace)
    ensures rc == 0 ==> trace == Session(queueDepth)
    ensures !env.setupOk ==> trace == []
  {
    batches, totalReads, trace := [], 0, [];
    if !env.setupOk {
      return -1, batches, totalReads, trace;
    }
    var allocRc, allocTrace := AllocateAlignedBuffers(queueDepth, env.memalignOk);
    if allocRc < 0 {
      trace := [Acquire(IoContext)] + allocTrace + [Release(IoContext)];
      AbortedTrace(allocTrace, FirstFailure(env.memalignOk));
      return -1, batches, totalReads, trace;
    }
    batches, totalReads := DispatchExtents(list, bitmap, readSize, stride, queueDepth, env.submitResult,
                                           env.eventsResult);
    var freeTrace := FreeAlignedBuffers(queueDepth);
    trace := [Acquire(IoContext)] + allocTrace + [Release(IoContext)] + freeTrace;
    SessionBalanced(queueDepth);
    rc := 0;
  }

  /** The number of completions `io_uring_wait_cqe` delivers for batch b before it fails, at most `submitted`. */
  function Reaped(submitted: int, waitOk: (nat, nat) -> bool, b: nat): nat
  {
    ReapedFrom(submitted, waitOk, b, 0)
  }

  function ReapedFrom(submitted: int, waitOk: (nat, nat) -> bool, b: nat, i: nat): nat
    decreases submitted - i
  {
    if i >= submitted || !waitOk(b, i) then i else ReapedFrom(submitted, waitOk, b, i + 1)
  }

  /**
    Completions are reaped in order: every wait before `Reaped` succeeded,
    no more than `submitted` are awaited, and stopping early means that wait failed.
  */
  lemma {:induction false} ReapedFromSpec(submitted: int, waitOk: (nat, nat) -> bool, b: nat, i: nat)
    requires forall j :: 0 <= j < i ==> waitOk(b, j)
    requires i <= submitted || i == 0
    ensures var n := ReapedFrom(submitted, waitOk, b, i);
      i <= n && (n <= submitted || n == 0) && (forall j :: 0 <= j < n ==> waitOk(b, j)) &&
      (n < submitted ==> !waitOk(b, n))
    decreases submitted - i
  {
    if !(i >= submitted || !waitOk(b, i)) {
      ReapedFromSpec(submitted, waitOk, b, i + 1);
    }
  }

  lemma ReapedSpec(submitted: int, waitOk: (nat, nat) -> bool, b: nat)
    ensures var n := Reaped(submitted, waitOk, b);
      n <= Max0(submitted) && (forall j :: 0 <= j < n ==> waitOk(b, j)) && (n < submitted ==> !waitOk(b, n))
  {
    ReapedFromSpec(submitted, waitOk, b, 0);
  }

  function Max0(x: int): nat
  {
    if x < 0 then 0 else x
  }

  /** The completion loop of the io_uring warmers: `for (i = 0; i < submitted; i++)`, stopping at a failed wait. */
  method WaitCompletions(submitted: int, waitOk: (nat, nat) -> bool, b: nat) returns (reaped: nat)
    ensures reaped == Reaped(submitted, waitOk, b)
  {
    reaped := 0;
    while reaped < submitted
      invariant ReapedFrom(submitted, waitOk, b, reaped) == Reaped(submitted, waitOk, b)
      decreases submitted - reaped
    {
      if !waitOk(b, reaped) {
        break;
      }
      reaped := reaped + 1;
    }
  }

  /**
    The outer loop of `io_warm_extents_uring` once the ring and the buffers
    are set up: batch after batch of `ExtentReads`, each cut short when the
    ring runs out of submission entries and followed by its completion loop.
  */
  method DispatchExtentsUring(list: seq<Extent>, bitmap: WarmedBitmap?, readSize: int, stride: nat, queueDepth: nat,
                              sqeLimit: nat -> nat, submitResult: nat -> int, waitOk: (nat, nat) -> bool)
    returns (batches: seq<seq<int>>, reaped: seq<nat>, totalReads: nat)
    requires stride > 0 && PhysicalOffsetsNonNegative(list)
    requires bitmap != null ==> bitmap.Valid()
    modifies if bitmap != null then {bitmap.data} else {}
    ensures batches == UringBatches(ExtentReads(list, stride), queueDepth, sqeLimit, 0)
    ensures |reaped| == |batches|
    ensures forall b :: 0 <= b < |reaped| ==> reaped[b] == Reaped(submitResult(b), waitOk, b)
    ensures totalReads == |Flatten(batches)|
    ensures NonNegative(Flatten(batches))
    ensures bitmap != null ==> (bitmap.Valid() &&
      bitmap.Bytes() == MarkReads(old(bitmap.Bytes()), Flatten(batches), readSize, bitmap.diskSize, bitmap.blockSize))
  {
    batches, reaped, totalReads := [], [], 0;
    ghost var plan := ExtentReads(list, stride);
    var index: nat, off: nat := 0, 0;
    RestStart(list, stride);
    while index < |list|
      invariant index <= |list|
      invariant UringBatches(plan, queueDepth, sqeLimit, 0) ==
        batches + UringBatches(Rest(list, index, off, stride), queueDepth, sqeLimit, |batches|)
      invariant |reaped| == |batches|
      invariant forall b :: 0 <= b < |reaped| ==> reaped[b] == Reaped(submitResult(b), waitOk, b)
      invariant totalReads == |Flatten(batches)|
      invariant NonNegative(Flatten(batches))
      invariant bitmap != null ==> (bitmap.Valid() &&
        bitmap.Bytes() == MarkReads(old(bitmap.Bytes()), Flatten(batches), readSize, bitmap.diskSize, bitmap.blockSize))
      decreases |Rest(list, index, off, stride)|
    {
      ghost var rest0 := Rest(list, index, off, stride);
      var b := |batches|;
      var batch;
      batch, index, off := PrepareExtentBatch(list, index, off, stride, readSize, queueDepth, sqeLimit(b), bitmap);
      ghost var rest1 := Rest(list, index, off, stride);
      if |batch| == 0 {
        assert UringBatches(rest0, queueDepth, sqeLimit, b) == [];
        break;
      }
      if bitmap != null {
        MarkBatch(old(bitmap.Bytes()), batches, batch, readSize, bitmap.diskSize, bitmap.blockSize);
      } else {
        MarkBatch([], batches, batch, readSize, 0, 1);
      }
      FlattenSnoc(batches, batch);
      UringAdvance(plan, batches, rest0, batch, rest1, queueDepth, sqeLimit);
      var submitted := submitResult(b);
      var done := WaitCompletions(submitted, waitOk, b);
      batches, reaped, totalReads := batches + [batch], reaped + [done], totalReads + |batch|;
    }
  }

  /**
    `io_warm_extents_uring`.  When neither queue initialisation succeeds it
    returns what `io_warm_extents` does (`fallback`).  Otherwise it fails
    (-1) only when the buffer pool fails; batches are cut by `queueDepth`
    and by the submission entries available, and every batch is followed by
    its completion loop whatever `io_uring_submit` returned.
  */
  method WarmExtentsUring(list: seq<Extent>, bitmap: WarmedBitmap?, readSize: int, stride: nat, queueDepth: nat,
                          env: UringEnv)
    returns (rc: int, batches: seq<seq<int>>, reaped: seq<nat>, totalReads: nat, trace: seq<Event>)
    requires stride > 0 && |env.memalignOk| == queueDepth && |env.fallback.memalignOk| == queueDepth
    requires PhysicalOffsetsNonNegative(list)
    requires bitmap != null ==> bitmap.Valid()
    modifies if bitmap != null then {bitmap.data} else {}
    ensures rc == 0 || rc == -1
    ensures RingOk(env) ==> (rc == 0 <==> AllocOk(env.memalignOk))
    ensures !RingOk(env) ==> (rc == 0 <==> env.fallback.setupOk && AllocOk(env.fallback.memalignOk))
    ensures rc == 0 && RingOk(env) ==>
      batches == UringBatches(ExtentReads(list, stride), queueDepth, env.sqeLimit, 0) &&
      |reaped| == |batches| &&
      forall b :: 0 <= b < |reaped| ==> reaped[b] == Reaped(env.submitResult(b), env.waitOk, b)
    ensures rc == 0 && !RingOk(env) ==>
      batches == AioBatches(Chunks(ExtentReads(list, stride), queueDepth),
                            env.fallback.submitResult, env.fallback.eventsResult, 0)
    ensures rc == -1 ==> batches == []
    ensures !RingOk(env) ==> reaped == []
    ensures totalReads == |Flatten(batches)|
    ensures NonNegative(Flatten(batches))
    ensures bitmap != null ==> (bitmap.Valid() &&
      bitmap.Bytes() == MarkReads(old(bitmap.Bytes()), Flatten(batches), readSize, bitmap.diskSize, bitmap.blockSize))
    ensures Balanced(trace)
    ensures rc == 0 ==> trace == Session(queueDepth)
  {
    reaped := [];
    if !env.sqpollInitOk && !env.initOk {
      rc, batches, totalReads, trace := WarmExtents(list, bitmap, readSize, stride, queueDepth, env.fallback);
      return;
    }
    batches, totalReads, trace := [], 0, [];
    var allocRc, allocTrace := AllocateAlignedBuffers(queueDepth, env.memalignOk);
    if allocRc < 0 {
      trace := [Acquire(IoContext)] + allocTrace + [Release(IoContext)];
      AbortedTrace(allocTrace, FirstFailure(env.memalignOk));
      return -1, batches, reaped, totalReads, trace;
    }
    batches, reaped, totalReads := DispatchExtentsUring(list, bitmap, readSize, stride, queueDepth, env.sqeLimit,
                                                        env.submitResult, env.waitOk);
    var freeTrace := FreeAlignedBuffers(queueDepth);
    trace := [Acquire(IoContext)] + allocTrace + [Release(IoContext)] + freeTrace;
    SessionBalanced(queueDepth);
    rc := 0;
  }

  // ---------------------------------------------------------------------
  // Phase 2: the rest of the device
  // ---------------------------------------------------------------------

  /**
    The inner loop of `io_warm_remaining_disk` and
    `io_warm_remaining_disk_uring`: from `cur0` it takes the next unmarked
    stride positions, at most `queueDepth` and `sqeAvailable` of them, with
    the read length clamped at the end of the device.
  */
  method PrepareDiskBatch(bitmap: WarmedBitmap, diskSize: int, readSize: int, stride: nat, cur0: nat,
                          queueDepth: nat, sqeAvailable: nat)
    returns (batch: seq<Read>, cur: nat)
    requires stride > 0 && bitmap.Valid()
    ensures batch + DiskReads(bitmap.Bytes(), bitmap.blockSize, diskSize, readSize, stride, cur) ==
      DiskReads(bitmap.Bytes(), bitmap.blockSize, diskSize, readSize, stride, cur0)
    ensures |batch| == Min(Min(queueDepth, sqeAvailable),
                           |DiskReads(bitmap.Bytes(), bitmap.blockSize, diskSize, readSize, stride, cur0)|)
  {
    ghost var bytes := bitmap.Bytes();
    ghost var bs := bitmap.blockSize;
    batch, cur := [], cur0;
    while |batch| < queueDepth && cur < diskSize
      invariant batch + DiskReads(bytes, bs, diskSize, readSize, stride, cur) ==
        DiskReads(bytes, bs, diskSize, readSize, stride, cur0)
      invariant |batch| <= Min(queueDepth, sqeAvailable)
      decreases diskSize - cur
    {
      if bitmap.IsMarked(cur) {
        cur := cur + stride;
        continue;
      }
      var readLength := readSize;
      if cur + readLength > diskSize {
        readLength := diskSize - cur;
      }
      if |batch| >= sqeAvailable {
        break;
      }
      batch := batch + [Read(cur, readLength)];
      cur := cur + stride;
    }
  }

  /**
    The outer loop of `io_warm_remaining_disk` once the context and the
    buffers are set up: batch after batch of `RemainingReads`, stopping after
    the first batch whose `io_submit` or `io_getevents` result falls short.
  */
  method DispatchDisk(bitmap: WarmedBitmap, diskSize: int, readSize: int, stride: nat, queueDepth: nat,
                      submitResult: nat -> int, eventsResult: nat -> int)
    returns (batches: seq<seq<Read>>, totalReads: nat)
    requires stride > 0 && bitmap.Valid()
    ensures batches == AioBatches(Chunks(RemainingReads(bitmap.Bytes(), bitmap.blockSize, diskSize, readSize, stride),
                                         queueDepth), submitResult, eventsResult, 0)
    ensures totalReads == |Flatten(batches)|
  {
    batches, totalReads := [], 0;
    ghost var bytes := bitmap.Bytes();
    ghost var bs := bitmap.blockSize;
    ghost var plan := RemainingReads(bytes, bs, diskSize, readSize, stride);
    var cur: nat := 0;
    while cur < diskSize
      invariant AioBatches(Chunks(plan, queueDepth), submitResult, eventsResult, 0) ==
        batches + AioBatches(Chunks(DiskReads(bytes, bs, diskSize, readSize, stride, cur), queueDepth),
                             submitResult, eventsResult, |batches|)
      invariant totalReads == |Flatten(batches)|
      decreases |DiskReads(bytes, bs, diskSize, readSize, stride, cur)|
    {
      ghost var rest0 := DiskReads(bytes, bs, diskSize, readSize, stride, cur);
      var batch;
      batch, cur := PrepareDiskBatch(bitmap, diskSize, readSize, stride, cur, queueDepth, queueDepth);
      ghost var rest1 := DiskReads(bytes, bs, diskSize, readSize, stride, cur);
      if |batch| == 0 {
        assert Chunks(rest0, queueDepth) == [];
        break;
      }
      var b := |batches|;
      FlattenSnoc(batches, batch);
      if !AioBatchOk(|batch|, submitResult(b), eventsResult(b)) {
        AioStop(plan, batches, rest0, batch, rest1, queueDepth, submitResult, eventsResult);
        batches, totalReads := batches + [batch], totalReads + |batch|;
        break;
      }
      AioAdvance(plan, batches, rest0, batch, rest1, queueDepth, submitResult, eventsResult);
      batches, totalReads := batches + [batch], totalReads + |batch|;
    }
  }

  /**
    The outer loop of `io_warm_remaining_disk_uring` once the ring and the
    buffers are set up.
  */
  method DispatchDiskUring(bitmap: WarmedBitmap, diskSize: int, readSize: int, stride: nat, queueDepth: nat,
                           sqeLimit: nat -> nat, submitResult: nat -> int, waitOk: (nat, nat) -> bool)
    returns (batches: seq<seq<Read>>, reaped: seq<nat>, totalReads: nat)
    requires stride > 0 && bitmap.Valid()
    ensures batches == UringBatches(RemainingReads(bitmap.Bytes(), bitmap.blockSize, diskSize, readSize, stride),
                                    queueDepth, sqeLimit, 0)
    ensures |reaped| == |batches|
    ensures forall b :: 0 <= b < |reaped| ==> reaped[b] == Reaped(submitResult(b), waitOk, b)
    ensures totalReads == |Flatten(batches)|
  {
    batches, reaped, totalReads := [], [], 0;
    ghost var bytes := bitmap.Bytes();
    ghost var bs := bitmap.blockSize;
    ghost var plan := RemainingReads(bytes, bs, diskSize, readSize, stride);
    var cur: nat := 0;
    while cur < diskSize
      invariant UringBatches(plan, queueDepth, sqeLimit, 0) ==
        batches + UringBatches(DiskReads(bytes, bs, diskSize, readSize, stride, cur), queueDepth, sqeLimit, |batches|)
      invariant |reaped| == |batches|
      invariant forall b :: 0 <= b < |reaped| ==> reaped[b] == Reaped(submitResult(b), waitOk, b)
      invariant totalReads == |Flatten(batches)|
      decreases |DiskReads(bytes, bs, diskSize, readSize, stride, cur)|
    {
      ghost var rest0 := DiskReads(bytes, bs, diskSize, readSize, stride, cur);
      var b := |batches|;
      var batch;
      batch, cur := PrepareDiskBatch(bitmap, diskSize, readSize, stride, cur, queueDepth, sqeLimit(b));
      ghost var rest1 := DiskReads(bytes, bs, diskSize, readSize, stride, cur);
      if |batch| == 0 {
        assert UringBatches(rest0, queueDepth, sqeLimit, b) == [];
        break;
      }
      FlattenSnoc(batches, batch);
      UringAdvance(plan, batches, rest0, batch, rest1, queueDepth, sqeLimit);
      var submitted := submitResult(b);
      var done := WaitCompletions(submitted, waitOk, b);
      batches, reaped, totalReads := batches + [batch], reaped + [done], totalReads + |batch|;
    }
  }

  /**
    `io_warm_remaining_disk` (libaio) on a device of `diskSize` bytes (the
    value `device_get_size` returns): -1 when the size is not positive or
    `io_setup` or the pool fails; otherwise 0, after issuing the reads of
    `RemainingReads` in batches of `queueDepth`, stopping after the first
    batch that falls short.  The bitmap is only read.
  */
  method WarmRemainingDisk(bitmap: WarmedBitmap, diskSize: int, readSize: int, stride: nat, queueDepth: nat,
                           env: AioEnv)
    returns (rc: int, batches: seq<seq<Read>>, totalReads: nat, trace: seq<Event>)
    requires stride > 0 && |env.memalignOk| == queueDepth && bitmap.Valid()
    ensures rc == 0 || rc == -1
    ensures rc == 0 <==> diskSize > 0 && env.setupOk && AllocOk(env.memalignOk)
    ensures rc == 0 ==>
      batches == AioBatches(Chunks(RemainingReads(bitmap.Bytes(), bitmap.blockSize, diskSize, readSize, stride),
                                   queueDepth), env.submitResult, env.eventsResult, 0)
    ensures rc == -1 ==> batches == []
    ensures totalReads == |Flatten(batches)|
    ensures Balanced(trace)
    ensures rc == 0 ==> trace == Session(queueDepth)
    ensures diskSize <= 0 || !env.setupOk ==> trace == []
  {
    batches, totalReads, trace := [], 0, [];
    if diskSize <= 0 || !env.setupOk {
      return -1, batches, totalReads, trace;
    }
    var allocRc, allocTrace := AllocateAlignedBuffers(queueDepth, env.memalignOk);
    if allocRc < 0 {
      trace := [Acquire(IoContext)] + allocTrace + [Release(IoContext)];
      AbortedTrace(allocTrace, FirstFailure(env.memalignOk));
      return -1, batches, totalReads, trace;
    }
    batches, totalReads := DispatchDisk(bitmap, diskSize, readSize, stride, queueDepth, env.submitResult,
                                        env.eventsResult);
    var freeTrace := FreeAlignedBuffers(queueDepth);
    trace := [Acquire(IoContext)] + allocTrace + [Release(IoContext)] + freeTrace;
    SessionBalanced(queueDepth);
    rc := 0;
  }

  /**
    `io_warm_remaining_disk_uring`: the device size is checked first; when
    neither queue initialisation succeeds it returns what
    `io_warm_remaining_disk` does (`fallback`).
  */
  method WarmRemainingDiskUring(bitmap: WarmedBitmap, diskSize: int, readSize: int, stride: nat, queueDepth: nat,
                                env: UringEnv)
    returns (rc: int, batches: seq<seq<Read>>, reaped: seq<nat>, totalReads: nat, trace: seq<Event>)
    requires stride > 0 && |env.memalignOk| == queueDepth && |env.fallback.memalignOk| == queueDepth
    requires bitmap.Valid()
    ensures rc == 0 || rc == -1
    ensures RingOk(env) ==> (rc == 0 <==> diskSize > 0 && AllocOk(env.memalignOk))
    ensures !RingOk(env) ==> (rc == 0 <==> diskSize > 0 && env.fallback.setupOk && AllocOk(env.fallback.memalignOk))
    ensures rc == 0 && RingOk(env) ==>
      batches == UringBatches(RemainingReads(bitmap.Bytes(), bitmap.blockSize, diskSize, readSize, stride),
                              queueDepth, env.sqeLimit, 0) &&
      |reaped| == |batches| &&
      forall b :: 0 <= b < |reaped| ==> reaped[b] == Reaped(env.submitResult(b), env.waitOk, b)
    ensures rc == 0 && !RingOk(env) ==>
      batches == AioBatches(Chunks(RemainingReads(bitmap.Bytes(), bitmap.blockSize, diskSize, readSize, stride),
                                   queueDepth), env.fallback.submitResult, env.fallback.eventsResult, 0)
    ensures rc == -1 ==> batches == []
    ensures !RingOk(env) ==> reaped == []
    ensures totalReads == |Flatten(batches)|
    ensures Balanced(trace)
    ensures rc == 0 ==> trace == Session(queueDepth)
    ensures diskSize <= 0 ==> trace == []
  {
    batches, reaped, totalReads, trace := [], [], 0, [];
    if diskSize <= 0 {
      return -1, batches, reaped, totalReads, trace;
    }
    if !env.sqpollInitOk && !env.initOk {
      rc, batches, totalReads, trace := WarmRemainingDisk(bitmap, diskSize, readSize, stride, queueDepth, env.fallback);
      return;
    }
    var allocRc, allocTrace := AllocateAlignedBuffers(queueDepth, env.memalignOk);
    if allocRc < 0 {
      trace := [Acquire(IoContext)] + allocTrace + [Release(IoContext)];
      AbortedTrace(allocTrace, FirstFailure(env.memalignOk));
      return -1, batches, reaped, totalReads, trace;
    }
    batches, reaped, totalReads := DispatchDiskUring(bitmap, diskSize, readSize, stride, queueDepth, env.sqeLimit,
                                                     env.submitResult, env.waitOk);
    var freeTrace := FreeAlignedBuffers(queueDepth);
    trace := [Acquire(IoContext)] + allocTrace + [Release(IoContext)] + freeTrace;
    SessionBalanced(queueDepth);
    rc := 0;
  }
}

/**
  The io_uring backend (rust-cache-warmer/src/warming/io_uring.rs): only
  direct I/O is implemented; reads are positioned (`read_at`), so no seek
  is made.  Without the `io_uring` feature a stub reports `Unsupported`.
*/
module IoUring {
  import opened Warming
  import opened ReadLoops
  import opened Resources

  /** The sparse loop: a 4096-byte `read_at` at `offset` rounded down to 4096, every 64 KiB. */
  function SparseAccesses(src: ByteSource, fileSize: nat): seq<Access>
  {
    SampleCalls(src, fileSize, SAMPLE_INTERVAL, ALIGNMENT, ALIGNMENT, false, 0)
  }

  /** The full loop: a `read_at` of `ChunkRequest(file_size - offset)` bytes at `offset`. */
  function FullAccesses(src: ByteSource, fileSize: nat): seq<Access>
  {
    ChunkCalls(src, fileSize, false, 0)
  }

  /** What `warm_with_io_uring_direct(path, file_size, sparse_threshold)` does. */
  function UringDirect(fileSize: nat, sparseThreshold: nat, open: OpenOutcome, allocOk: bool): Attempt
  {
    match open
    case OpenFailed(e) => Attempt(Err(e), [Open(true)], [], [])
    case Opened(src) =>
      if !allocOk then Attempt(Err(OutOfMemory), [Open(true)], [], [])
      else if Sparse(fileSize, sparseThreshold) then
        Attempt(Ok(WarmingResult("io_uring_direct_sparse", true)), [Open(true)], SparseAccesses(src, fileSize), ONE_BUFFER)
      else
        Attempt(Ok(WarmingResult("io_uring_direct_full", true)), [Open(true)], FullAccesses(src, fileSize), ONE_BUFFER)
  }

  /**
    `io_uring::warm_file`, in both builds: the stub when the feature is off,
    `Unsupported` without direct I/O, and the direct path otherwise.
  */
  function WarmFile(build: Build, fileSize: nat, options: WarmingOptions, direct: OpenOutcome, allocOk: bool): Attempt
  {
    if !UringCompiled(build) || !options.useDirectIo then Attempt(Err(Unsupported), [], [], [])
    else UringDirect(fileSize, options.sparseLargeFiles, direct, allocOk)
  }

  // ---------------------------------------------------------------------
  // Properties
  // ---------------------------------------------------------------------

  /**
    `Unsupported` comes back, with nothing opened, exactly when the feature
    is compiled out or direct I/O is off; the direct path reports the open
    error, `OutOfMemory` for a null allocation, or success with its tag.
  */
  lemma WarmFileOutcome(build: Build, fileSize: nat, options: WarmingOptions, direct: OpenOutcome, allocOk: bool)
    ensures var a := WarmFile(build, fileSize, options, direct, allocOk);
      && (a.outcome == Err(Unsupported) && a.calls == [] <==> !UringCompiled(build) || !options.useDirectIo)
      && (UringCompiled(build) && options.useDirectIo ==>
            a.calls == [Open(true)] &&
            (a.outcome.Ok? <==> direct.Opened? && allocOk) &&
            (direct.OpenFailed? ==> a.outcome == Err(direct.error)) &&
            (direct.Opened? && !allocOk ==> a.outcome == Err(OutOfMemory)) &&
            (a.outcome.Ok? ==>
               a.outcome.result.success && a.events == ONE_BUFFER &&
               a.outcome.result.tag == (if Sparse(fileSize, options.sparseLargeFiles) then "io_uring_direct_sparse"
                                        else "io_uring_direct_full")))
      && Balanced(a.events)
  {
    OneBufferBalanced();
    assert WellFormed([]) && Live([]) == {};
  }

  /**
    Sparse reads: 4096 bytes at each multiple of 65536 in turn, below the
    file size, with no seek, stopping after the first failed or empty read.
  */
  lemma SparsePlan(src: ByteSource, fileSize: nat)
    ensures var t := SparseAccesses(src, fileSize);
      && (forall i :: 0 <= i < |t| ==>
            t[i] == Read(t[i].pos, ALIGNMENT) && t[i].pos % SAMPLE_INTERVAL == 0 && t[i].pos < fileSize)
      && (|t| > 0 ==> t[0].pos == 0)
      && (forall i :: 0 < i < |t| ==> t[i].pos == t[i - 1].pos + SAMPLE_INTERVAL)
      && (forall i :: 0 <= i < |t| - 1 ==> SampleOk(src, t[i].pos, ALIGNMENT, false))
  {
    var t := SparseAccesses(src, fileSize);
    SampleRealign(src, fileSize, SAMPLE_INTERVAL, SAMPLE_INTERVAL, ALIGNMENT, ALIGNMENT, false, 0);
    SampleCallsShape(src, fileSize, SAMPLE_INTERVAL, SAMPLE_INTERVAL, ALIGNMENT, false, 0);
    SampleCallsStop(src, fileSize, SAMPLE_INTERVAL, SAMPLE_INTERVAL, ALIGNMENT, false, 0);
  }


  /**
    Full reads: each a multiple of 4096 and at most 1 MiB, below the file
    size, starting at 0 and then where the bytes actually read end.
  */
  lemma FullPlan(src: ByteSource, fileSize: nat)
    ensures var t := FullAccesses(src, fileSize);
      && (forall i :: 0 <= i < |t| ==>
            t[i].Read? && t[i].pos < fileSize && t[i].len % ALIGNMENT == 0 && 0 < t[i].len <= CHUNK_SIZE)
      && (|t| > 0 ==> t[0].pos == 0)
      && (forall i :: 0 < i < |t| ==> t[i].pos == t[i - 1].pos + ChunkGot(src, fileSize, t[i - 1].pos))
  {
    var t := FullAccesses(src, fileSize);
    ChunkCallsShape(src, fileSize, false, 0);
    forall i | 0 <= i < |t|
      ensures t[i].Read? && t[i].len % ALIGNMENT == 0 && 0 < t[i].len <= CHUNK_SIZE
    {
      assert RequestsChunk(t[i], fileSize);
    }
  }

  // ---------------------------------------------------------------------
  // The loops
  // ---------------------------------------------------------------------

  /** The sparse loop of `warm_with_io_uring_direct`. */
  method SparseLoop(src: ByteSource, fileSize: nat) returns (accesses: seq<Access>, samplesRead: nat)
    ensures accesses == SparseAccesses(src, fileSize)
  {
    accesses := [];
    samplesRead := 0;
    var offset: nat := 0;
    while offset < fileSize
      invariant SampleLoop(src, fileSize, SAMPLE_INTERVAL, ALIGNMENT, ALIGNMENT, false, accesses, offset)
      decreases fileSize - offset
    {
      var aligned := (offset / ALIGNMENT) * ALIGNMENT;
      SampleIterate(accesses, src, fileSize, SAMPLE_INTERVAL, ALIGNMENT, ALIGNMENT, false, offset, aligned);
      var r := ReadAt(src, aligned, ALIGNMENT);
      if r.Failed? || r.n == 0 {
        accesses := accesses + [Read(aligned, ALIGNMENT)];
        break;
      }
      accesses := accesses + [Read(aligned, ALIGNMENT)];
      samplesRead := samplesRead + 1;
      offset := offset + SAMPLE_INTERVAL;
    }
  }

  /** The full loop of `warm_with_io_uring_direct`. */
  method FullLoop(src: ByteSource, fileSize: nat) returns (accesses: seq<Access>, totalRead: nat)
    ensures accesses == FullAccesses(src, fileSize)
  {
    accesses := [];
    totalRead := 0;
    var offset: nat := 0;
    while offset < fileSize
      invariant ChunkLoop(src, fileSize, false, accesses, offset)
      decreases fileSize - offset
    {
      var next, done;
      accesses, next, done := FullStep(src, fileSize, accesses, offset);
      if done {
        return;
      }
      totalRead := totalRead + (next - offset);
      offset := next;
    }
    assert accesses + [] == accesses;
  }

  /**
    One pass of the chunked loop at `offset`: read one chunk; `done` when
    the read fails or reads nothing (the loop's `break`), and then the
    accesses are all the loop makes.
  */
  method FullStep(src: ByteSource, fileSize: nat, accesses0: seq<Access>, offset: nat)
    returns (accesses: seq<Access>, next: nat, done: bool)
    requires offset < fileSize && ChunkLoop(src, fileSize, false, accesses0, offset)
    ensures done ==> accesses == FullAccesses(src, fileSize)
    ensures !done ==> offset < next && ChunkLoop(src, fileSize, false, accesses, next)
  {
    var actualReadSize := ChunkRequest(fileSize - offset);
    ChunkIterate(accesses0, src, fileSize, false, offset);
    var r := ReadAt(src, offset, actualReadSize);
    accesses := accesses0 + [Read(offset, actualReadSize)];
    if r.Failed? || r.n == 0 {
      return accesses, offset, true;
    }
    next := offset + r.n;
    done := false;
  }

  /** `warm_with_io_uring_direct`. */
  method WarmWithIoUringDirect(fileSize: nat, sparseThreshold: nat, open: OpenOutcome, allocOk: bool)
    returns (a: Attempt)
    ensures a == UringDirect(fileSize, sparseThreshold, open, allocOk)
  {
    if open.OpenFailed? {
      return Attempt(Err(open.error), [Open(true)], [], []);
    }
    var src := open.src;
    if !allocOk {
      return Attempt(Err(OutOfMemory), [Open(true)], [], []);
    }
    var events := [Acquire(Buffer(0))];
    var accesses;
    var tag;
    if sparseThreshold > 0 && fileSize > sparseThreshold {
      var samples;
      accesses, samples := SparseLoop(src, fileSize);
      tag := "io_uring_direct_sparse";
    } else {
      var total;
      accesses, total := FullLoop(src, fileSize);
      tag := "io_uring_direct_full";
    }
    events := events + [Release(Buffer(0))];
    a := Attempt(Ok(WarmingResult(tag, true)), [Open(true)], accesses, events);
  }
}

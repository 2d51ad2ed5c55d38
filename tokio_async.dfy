/**
  The Tokio backend (src/warming/tokio_async.rs): `warm_file` picks direct
  I/O on Linux when asked to, otherwise plain reads; each path samples large
  files sparsely and reads smaller ones whole.  The functions state what
  each path does; the methods, which hold the loops, are proved to do it.
*/
module TokioAsync {
  import opened Warming
  import opened ReadLoops
  import opened Resources

  /** The direct sparse loop: seek to `offset` rounded down to 4096, read 4096 bytes, every 64 KiB. */
  function DirectSparseAccesses(src: ByteSource, fileSize: nat): seq<Access>
  {
    SampleCalls(src, fileSize, SAMPLE_INTERVAL, ALIGNMENT, ALIGNMENT, true, 0)
  }

  /** The direct full loop: seek to `offset`, read `ChunkRequest(file_size - offset)` bytes. */
  function DirectFullAccesses(src: ByteSource, fileSize: nat): seq<Access>
  {
    ChunkCalls(src, fileSize, true, 0)
  }

  /** The manual sparse loop: seek to `offset`, read 1 byte, every 4096 bytes. */
  function ManualSparseAccesses(src: ByteSource, fileSize: nat): seq<Access>
  {
    SampleCalls(src, fileSize, PAGE_SIZE, 1, 1, true, 0)
  }

  /** What `warm_with_direct_io(path, file_size, sparse_threshold)` does. */
  function DirectIo(fileSize: nat, sparseThreshold: nat, open: OpenOutcome, allocOk: bool): Attempt
  {
    match open
    case OpenFailed(e) => Attempt(Err(e), [Open(true)], [], [])
    case Opened(src) =>
      if !allocOk then Attempt(Err(OutOfMemory), [Open(true)], [], [])
      else if Sparse(fileSize, sparseThreshold) then
        Attempt(Ok(WarmingResult("tokio_direct_sparse", true)), [Open(true)], DirectSparseAccesses(src, fileSize), ONE_BUFFER)
      else
        Attempt(Ok(WarmingResult("tokio_direct_full", true)), [Open(true)], DirectFullAccesses(src, fileSize), ONE_BUFFER)
  }

  /** The cache drop after manual reading, issued on Linux only. */
  function DropHint(os: Os, fileSize: nat): seq<Call>
  {
    if os == Linux then [Fadvise(DontNeed, fileSize)] else []
  }

  /** What `warm_with_manual_reading(path, file_size, sparse_threshold)` does. */
  function ManualReading(fileSize: nat, sparseThreshold: nat, os: Os, open: OpenOutcome): Attempt
  {
    match open
    case OpenFailed(e) => Attempt(Err(e), [Open(false)], [], [])
    case Opened(src) =>
      if Sparse(fileSize, sparseThreshold) then
        Attempt(Ok(WarmingResult("tokio_sparse", true)), [Open(false)] + DropHint(os, fileSize),
                ManualSparseAccesses(src, fileSize), [])
      else
        Attempt(Ok(WarmingResult("tokio_full", true)), [Open(false)] + DropHint(os, fileSize), StreamCalls(src, 0), [])
  }

  /**
    `tokio_async::warm_file`: direct I/O iff it is asked for and the target
    is Linux.  `plain` and `direct` are the outcomes of opening the file
    without and with `O_DIRECT`; `allocOk` that of the aligned allocation.
  */
  function WarmFile(fileSize: nat, options: WarmingOptions, os: Os, plain: OpenOutcome, direct: OpenOutcome,
                    allocOk: bool): Attempt
  {
    if options.useDirectIo && os == Linux then DirectIo(fileSize, options.sparseLargeFiles, direct, allocOk)
    else ManualReading(fileSize, options.sparseLargeFiles, os, plain)
  }

  // ---------------------------------------------------------------------
  // Properties
  // ---------------------------------------------------------------------

  /**
    The direct path: an open error is returned as it is, a null allocation
    gives `OutOfMemory` with nothing to free, and otherwise the result is
    `Ok` with `success` and the mode's tag, and the one buffer is allocated
    and freed exactly once.
  */
  lemma DirectIoOutcome(fileSize: nat, sparseThreshold: nat, open: OpenOutcome, allocOk: bool)
    ensures var a := DirectIo(fileSize, sparseThreshold, open, allocOk);
      && (open.OpenFailed? ==> a.outcome == Err(open.error) && a.events == [] && a.accesses == [])
      && (open.Opened? && !allocOk ==> a.outcome == Err(OutOfMemory) && a.events == [] && a.accesses == [])
      && (a.outcome.Ok? <==> open.Opened? && allocOk)
      && (a.outcome.Ok? ==>
            a.outcome.result.success &&
            a.outcome.result.tag == (if Sparse(fileSize, sparseThreshold) then "tokio_direct_sparse"
                                     else "tokio_direct_full") &&
            a.events == ONE_BUFFER)
      && Balanced(a.events)
      && a.calls == [Open(true)]
  {
    OneBufferBalanced();
    assert WellFormed([]) && Live([]) == {};
  }

  /**
    Direct sparse reads: every seek goes to a multiple of 65536 (so of 4096,
    and `floor(offset/4096)·4096` is the offset itself) below the file size,
    each followed by a 4096-byte read there, one sample every 64 KiB from 0;
    the loop stops at the first failed seek, failed read or 0-byte read.
  */
  lemma DirectSparsePlan(src: ByteSource, fileSize: nat)
    ensures var t := DirectSparseAccesses(src, fileSize);
      && (forall i :: 0 <= i < |t| ==> t[i].pos % SAMPLE_INTERVAL == 0 && t[i].pos % ALIGNMENT == 0 && t[i].pos < fileSize)
      && (forall i :: 0 <= i < |t| ==> (t[i].Seek? <==> i % 2 == 0) && (t[i].Read? ==> t[i].len == ALIGNMENT))
      && (|t| > 0 ==> t[0] == Seek(0))
      && (forall i :: 0 < i < |t| ==> t[i].pos == t[i - 1].pos + (if t[i].Read? then 0 else SAMPLE_INTERVAL))
      && (forall i :: 0 <= i < |t| - 1 && t[i].Read? ==> SampleOk(src, t[i].pos, ALIGNMENT, true))
  {
    var t := DirectSparseAccesses(src, fileSize);
    SampleCallsShape(src, fileSize, SAMPLE_INTERVAL, SAMPLE_INTERVAL, ALIGNMENT, true, 0);
    SampleCallsShape(src, fileSize, SAMPLE_INTERVAL, ALIGNMENT, ALIGNMENT, true, 0);
    SampleCallsStop(src, fileSize, SAMPLE_INTERVAL, ALIGNMENT, ALIGNMENT, true, 0);
    assert SampleCalls(src, fileSize, SAMPLE_INTERVAL, SAMPLE_INTERVAL, ALIGNMENT, true, 0) == t by {
      SampleRealign(src, fileSize, SAMPLE_INTERVAL, SAMPLE_INTERVAL, ALIGNMENT, ALIGNMENT, true, 0);
    }
  }


  /**
    Direct full reads: every read asks for a multiple of 4096 that is at
    most 1 MiB, below the file size, after a seek to the same offset; the
    next chunk starts where the bytes actually read end.
  */
  lemma DirectFullPlan(src: ByteSource, fileSize: nat)
    ensures var t := DirectFullAccesses(src, fileSize);
      && (forall i :: 0 <= i < |t| ==> t[i].pos < fileSize && (t[i].Seek? <==> i % 2 == 0))
      && (forall i :: 0 <= i < |t| ==> (t[i].Read? ==> t[i].len % ALIGNMENT == 0 && 0 < t[i].len <= CHUNK_SIZE))
      && (|t| > 0 ==> t[0] == Seek(0))
      && (forall i :: 0 < i < |t| ==>
            t[i].pos == if t[i].Read? then t[i - 1].pos else t[i - 1].pos + ChunkGot(src, fileSize, t[i - 1].pos))
  {
    var t := DirectFullAccesses(src, fileSize);
    ChunkCallsShape(src, fileSize, true, 0);
    forall i | 0 <= i < |t| && t[i].Read?
      ensures t[i].len % ALIGNMENT == 0 && 0 < t[i].len <= CHUNK_SIZE
    {
      assert RequestsChunk(t[i], fileSize);
    }
  }

  /**
    Manual reading: the open error is returned as it is; otherwise the result
    is `Ok` with `success`, tag `tokio_sparse` or `tokio_full`, and the
    cache drop follows on Linux; no aligned memory is used.
  */
  lemma ManualReadingOutcome(fileSize: nat, sparseThreshold: nat, os: Os, open: OpenOutcome)
    ensures var a := ManualReading(fileSize, sparseThreshold, os, open);
      && (open.OpenFailed? ==> a.outcome == Err(open.error) && a.calls == [Open(false)] && a.accesses == [])
      && (open.Opened? ==>
            a.outcome == Ok(WarmingResult(if Sparse(fileSize, sparseThreshold) then "tokio_sparse" else "tokio_full", true)) &&
            a.calls == [Open(false)] + (if os == Linux then [Fadvise(DontNeed, fileSize)] else []))
      && a.events == []
  {
  }

  /**
    Manual sparse reads: a seek to each multiple of 4096 below the file size
    in turn, each followed by a 1-byte read, stopping at the first failure.
  */
  lemma ManualSparsePlan(src: ByteSource, fileSize: nat)
    ensures var t := ManualSparseAccesses(src, fileSize);
      && (forall i :: 0 <= i < |t| ==> t[i].pos % PAGE_SIZE == 0 && t[i].pos < fileSize)
      && (forall i :: 0 <= i < |t| ==> (t[i].Seek? <==> i % 2 == 0) && (t[i].Read? ==> t[i].len == 1))
      && (|t| > 0 ==> t[0] == Seek(0))
      && (forall i :: 0 < i < |t| ==> t[i].pos == t[i - 1].pos + (if t[i].Read? then 0 else PAGE_SIZE))
      && (forall i :: 0 <= i < |t| - 1 && t[i].Read? ==> SampleOk(src, t[i].pos, 1, true))
  {
    var t := ManualSparseAccesses(src, fileSize);
    SampleCallsShape(src, fileSize, PAGE_SIZE, PAGE_SIZE, 1, true, 0);
    SampleCallsStop(src, fileSize, PAGE_SIZE, 1, 1, true, 0);
    assert SampleCalls(src, fileSize, PAGE_SIZE, PAGE_SIZE, 1, true, 0) == t by {
      SampleRealign(src, fileSize, PAGE_SIZE, PAGE_SIZE, 1, 1, true, 0);
    }
  }


  /** `warm_file` takes the direct path exactly when direct I/O is asked for on Linux. */
  lemma WarmFileDispatch(fileSize: nat, options: WarmingOptions, os: Os, plain: OpenOutcome, direct: OpenOutcome,
                         allocOk: bool)
    ensures var a := WarmFile(fileSize, options, os, plain, direct, allocOk);
      (a.calls != [] && a.calls[0] == Open(true)) <==> options.useDirectIo && os == Linux
  {
  }

  // ---------------------------------------------------------------------
  // The loops
  // ---------------------------------------------------------------------

  /** The sparse loop of `warm_with_direct_io`. */
  method DirectSparseLoop(src: ByteSource, fileSize: nat) returns (accesses: seq<Access>, samplesRead: nat)
    ensures accesses == DirectSparseAccesses(src, fileSize)
  {
    accesses := [];
    samplesRead := 0;
    var offset: nat := 0;
    while offset < fileSize
      invariant SampleLoop(src, fileSize, SAMPLE_INTERVAL, ALIGNMENT, ALIGNMENT, true, accesses, offset)
      decreases fileSize - offset
    {
      var aligned := (offset / ALIGNMENT) * ALIGNMENT;
      SampleIterate(accesses, src, fileSize, SAMPLE_INTERVAL, ALIGNMENT, ALIGNMENT, true, offset, aligned);
      if !src.seekOk(aligned) {
        accesses := accesses + [Seek(aligned)];
        break;
      }
      var r := ReadAt(src, aligned, ALIGNMENT);
      if r.Failed? || r.n == 0 {
        accesses := accesses + [Seek(aligned), Read(aligned, ALIGNMENT)];
        break;
      }
      accesses := accesses + [Seek(aligned), Read(aligned, ALIGNMENT)];
      samplesRead := samplesRead + 1;
      offset := offset + SAMPLE_INTERVAL;
    }
  }

  /** The full loop of `warm_with_direct_io`. */
  method DirectFullLoop(src: ByteSource, fileSize: nat) returns (accesses: seq<Access>, totalRead: nat)
    ensures accesses == DirectFullAccesses(src, fileSize)
  {
    accesses := [];
    totalRead := 0;
    var offset: nat := 0;
    while offset < fileSize
      invariant ChunkLoop(src, fileSize, true, accesses, offset)
      decreases fileSize - offset
    {
      var next, done;
      accesses, next, done := DirectFullStep(src, fileSize, accesses, offset);
      if done {
        return;
      }
      totalRead := totalRead + (next - offset);
      offset := next;
    }
    assert accesses + [] == accesses;
  }

  /**
    One pass of the chunked loop at `offset`: seek and read one chunk;
    `done` when the seek or the read fails or reads nothing (the loop's
    `break`), and then the accesses are all the loop makes.
  */
  method DirectFullStep(src: ByteSource, fileSize: nat, accesses0: seq<Access>, offset: nat)
    returns (accesses: seq<Access>, next: nat, done: bool)
    requires offset < fileSize && ChunkLoop(src, fileSize, true, accesses0, offset)
    ensures done ==> accesses == DirectFullAccesses(src, fileSize)
    ensures !done ==> offset < next && ChunkLoop(src, fileSize, true, accesses, next)
  {
    var actualReadSize := ChunkRequest(fileSize - offset);
    ChunkIterate(accesses0, src, fileSize, true, offset);
    if !src.seekOk(offset) {
      return accesses0 + [Seek(offset)], offset, true;
    }
    var r := ReadAt(src, offset, actualReadSize);
    accesses := accesses0 + [Seek(offset), Read(offset, actualReadSize)];
    if r.Failed? || r.n == 0 {
      return accesses, offset, true;
    }
    next := offset + r.n;
    done := false;
  }

  /** `warm_with_direct_io`. */
  method WarmWithDirectIo(fileSize: nat, sparseThreshold: nat, open: OpenOutcome, allocOk: bool) returns (a: Attempt)
    ensures a == DirectIo(fileSize, sparseThreshold, open, allocOk)
  {
    if open.OpenFailed? {
      return Attempt(Err(open.error), [Open(true)], [], []);
    }
    var src := open.src;
    if !allocOk {
      return Attempt(Err(OutOfMemory), [Open(true)], [], []);
    }
    var events := [Acquire(Buffer(0))];
    var accesses;
    var tag;
    if sparseThreshold > 0 && fileSize > sparseThreshold {
      var samples;
      accesses, samples := DirectSparseLoop(src, fileSize);
      tag := "tokio_direct_sparse";
    } else {
      var total;
      accesses, total := DirectFullLoop(src, fileSize);
      tag := "tokio_direct_full";
    }
    events := events + [Release(Buffer(0))];
    a := Attempt(Ok(WarmingResult(tag, true)), [Open(true)], accesses, events);
  }

  /** The sparse loop of `warm_with_manual_reading`. */
  method ManualSparseLoop(src: ByteSource, fileSize: nat) returns (accesses: seq<Access>, pagesRead: nat)
    ensures accesses == ManualSparseAccesses(src, fileSize)
  {
    accesses := [];
    pagesRead := 0;
    var offset: nat := 0;
    while offset < fileSize
      invariant SampleLoop(src, fileSize, PAGE_SIZE, 1, 1, true, accesses, offset)
      decreases fileSize - offset
    {
      SampleIterate(accesses, src, fileSize, PAGE_SIZE, 1, 1, true, offset, offset);
      if !src.seekOk(offset) {
        accesses := accesses + [Seek(offset)];
        break;
      }
      var r := ReadAt(src, offset, 1);
      if r.Failed? || r.n == 0 {
        accesses := accesses + [Seek(offset), Read(offset, 1)];
        break;
      }
      accesses := accesses + [Seek(offset), Read(offset, 1)];
      pagesRead := pagesRead + 1;
      offset := offset + PAGE_SIZE;
    }
  }

  /** The full loop of `warm_with_manual_reading`: 8192-byte reads through the buffered reader. */
  method ManualFullLoop(src: ByteSource) returns (accesses: seq<Access>, totalRead: nat)
    ensures accesses == StreamCalls(src, 0)
  {
    accesses := [];
    totalRead := 0;
    var pos: nat := 0;
    while true
      invariant StreamLoop(src, accesses, pos)
      decreases src.length - pos
    {
      StreamIterate(accesses, src, pos);
      var r := ReadAt(src, pos, MANUAL_BUFFER);
      if r.Failed? || r.n == 0 {
        accesses := accesses + [Read(pos, MANUAL_BUFFER)];
        break;
      }
      accesses := accesses + [Read(pos, MANUAL_BUFFER)];
      totalRead := totalRead + r.n;
      pos := pos + r.n;
    }
  }

  /** `warm_with_manual_reading`. */
  method WarmWithManualReading(fileSize: nat, sparseThreshold: nat, os: Os, open: OpenOutcome) returns (a: Attempt)
    ensures a == ManualReading(fileSize, sparseThreshold, os, open)
  {
    if open.OpenFailed? {
      return Attempt(Err(open.error), [Open(false)], [], []);
    }
    var src := open.src;
    var accesses;
    var tag;
    if sparseThreshold > 0 && fileSize > sparseThreshold {
      var pages;
      accesses, pages := ManualSparseLoop(src, fileSize);
      tag := "tokio_sparse";
    } else {
      var total;
      accesses, total := ManualFullLoop(src);
      tag := "tokio_full";
    }
    var calls := [Open(false)];
    if os == Linux {
      calls := calls + [Fadvise(DontNeed, fileSize)];
    }
    a := Attempt(Ok(WarmingResult(tag, true)), calls, accesses, []);
  }
}

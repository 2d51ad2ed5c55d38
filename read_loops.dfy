/**
  The read loops of the Rust backends, as pure functions from an open file
  (`Warming.ByteSource`) to the calls the loop makes.  Three shapes occur:

  - sampling (`tokio_async.rs` direct and manual sparse, `io_uring.rs`
    sparse): one read of a fixed length at every `interval` bytes below the
    file size, optionally preceded by a seek, stopping at the first failed
    seek, failed read or 0-byte read;
  - chunked (`tokio_async.rs` and `io_uring.rs` direct full): reads of
    `ChunkRequest(remaining)` bytes, the offset advancing by the bytes each
    read returned, stopping the same way;
  - streaming (`tokio_async.rs` manual full): 8192-byte reads until a read
    returns 0 or fails.

  The backend methods are proved to make exactly these calls; the lemmas
  here state what the calls are.
*/
module ReadLoops {
  import opened CInt
  import opened Warming

  /** `(offset / alignment) * alignment` */
  function AlignDown(offset: nat, alignment: nat): (a: nat)
    requires alignment > 0
    ensures a % alignment == 0 && a <= offset < a + alignment
    ensures offset % alignment == 0 ==> a == offset
  {
    var q := offset / alignment;
    MultipleMod(q, alignment);
    q * alignment
  }

  lemma AddMultiple(x: nat, interval: nat, alignment: nat)
    requires alignment > 0 && interval % alignment == 0
    ensures (x + interval) % alignment == x % alignment
  {
    var q := interval / alignment;
    assert x + interval == (x / alignment + q) * alignment + x % alignment;
    DivUnique(x + interval, alignment, x / alignment + q, x % alignment);
  }

  lemma ParityShift(i: int)
    requires i >= 2
    ensures (i - 2) % 2 == i % 2
  {
  }

  // ---------------------------------------------------------------------
  // Sampling
  // ---------------------------------------------------------------------

  /** The calls of one sample at `a`: a seek when the loop seeks, then the read. */
  function SampleStep(src: ByteSource, a: nat, len: nat, seek: bool): seq<Access>
  {
    if seek && !src.seekOk(a) then [Seek(a)]
    else if seek then [Seek(a), Read(a, len)]
    else [Read(a, len)]
  }

  /** The sample at `a` went through: the seek (if any) worked and the read returned bytes. */
  predicate SampleOk(src: ByteSource, a: nat, len: nat, seek: bool)
  {
    (!seek || src.seekOk(a)) && ReadAt(src, a, len).Got? && ReadAt(src, a, len).n > 0
  }

  /**
    The sampling loop from `offset` on: `while offset < file_size { a :=
    align(offset); [seek(a) or break]; read(a, len): 0 or error => break;
    offset += interval }`.
  */
  function SampleCalls(src: ByteSource, fileSize: nat, interval: nat, alignment: nat, len: nat, seek: bool,
                       offset: nat): seq<Access>
    requires interval > 0 && alignment > 0
    decreases fileSize - offset
  {
    if offset >= fileSize then []
    else
      var a := AlignDown(offset, alignment);
      var step := SampleStep(src, a, len, seek);
      if SampleOk(src, a, len, seek) then step + SampleCalls(src, fileSize, interval, alignment, len, seek, offset + interval)
      else step
  }

  /**
    The `i`-th access of the sampling loop: a multiple of `alignment` below
    the file size and at or after `offset`; with seeks, even accesses are the
    seeks and odd ones the reads; every read asks for `len` bytes.
  */
  lemma {:induction false} SampleAccessAt(src: ByteSource, fileSize: nat, interval: nat, alignment: nat, len: nat,
                                          seek: bool, offset: nat, i: nat)
    requires interval > 0 && alignment > 0 && interval % alignment == 0 && offset % alignment == 0
    requires i < |SampleCalls(src, fileSize, interval, alignment, len, seek, offset)|
    ensures var c := SampleCalls(src, fileSize, interval, alignment, len, seek, offset)[i];
      && c.pos % alignment == 0 && offset <= c.pos < fileSize
      && (c.Read? ==> c.len == len)
      && (c.Seek? <==> seek && i % 2 == 0)
      && (i == 0 ==> c.pos == offset)
    decreases fileSize - offset
  {
    var a := AlignDown(offset, alignment);
    var step := SampleStep(src, a, len, seek);
    if i >= |step| {
      var rest := SampleCalls(src, fileSize, interval, alignment, len, seek, offset + interval);
      assert SampleCalls(src, fileSize, interval, alignment, len, seek, offset)[i] == rest[i - |step|];
      AddMultiple(offset, interval, alignment);
      SampleAccessAt(src, fileSize, interval, alignment, len, seek, offset + interval, i - |step|);
      if seek {
        assert |step| == 2;
        ParityShift(i);
      }
    } else {
      assert SampleCalls(src, fileSize, interval, alignment, len, seek, offset)[i] == step[i];
    }
  }

  /** Consecutive accesses: a read follows its seek at the same position; each new sample is `interval` further on. */
  lemma {:induction false} SampleSpacingAt(src: ByteSource, fileSize: nat, interval: nat, alignment: nat, len: nat,
                                           seek: bool, offset: nat, i: nat)
    requires interval > 0 && alignment > 0 && interval % alignment == 0 && offset % alignment == 0
    requires 0 < i < |SampleCalls(src, fileSize, interval, alignment, len, seek, offset)|
    ensures var t := SampleCalls(src, fileSize, interval, alignment, len, seek, offset);
      t[i].pos == t[i - 1].pos + (if seek && t[i].Read? then 0 else interval)
    decreases fileSize - offset
  {
    var t := SampleCalls(src, fileSize, interval, alignment, len, seek, offset);
    var a := AlignDown(offset, alignment);
    var step := SampleStep(src, a, len, seek);
    if i >= |step| {
      var rest := SampleCalls(src, fileSize, interval, alignment, len, seek, offset + interval);
      assert t[i] == rest[i - |step|] && t[i - 1] == (step + rest)[i - 1];
      AddMultiple(offset, interval, alignment);
      if i > |step| {
        assert t[i - 1] == rest[i - 1 - |step|];
        SampleSpacingAt(src, fileSize, interval, alignment, len, seek, offset + interval, i - |step|);
      } else {
        SampleAccessAt(src, fileSize, interval, alignment, len, seek, offset + interval, 0);
      }
    }
  }

  /**
    The sampling loop only touches positions that are multiples of
    `alignment` below the file size, starting at `offset` and `interval`
    apart; each read asks for `len` bytes at the position its seek went to.
  */
  lemma SampleCallsShape(src: ByteSource, fileSize: nat, interval: nat, alignment: nat, len: nat,
                         seek: bool, offset: nat)
    requires interval > 0 && alignment > 0 && interval % alignment == 0 && offset % alignment == 0
    ensures var t := SampleCalls(src, fileSize, interval, alignment, len, seek, offset);
      && (forall i :: 0 <= i < |t| ==> t[i].pos % alignment == 0 && offset <= t[i].pos < fileSize)
      && (forall i :: 0 <= i < |t| ==> (t[i].Read? ==> t[i].len == len))
      && (forall i :: 0 <= i < |t| ==> (t[i].Seek? <==> seek && i % 2 == 0))
      && (|t| > 0 ==> t[0].pos == offset)
      && (forall i :: 0 < i < |t| ==> t[i].pos == t[i - 1].pos + (if seek && t[i].Read? then 0 else interval))
  {
    var t := SampleCalls(src, fileSize, interval, alignment, len, seek, offset);
    forall i | 0 <= i < |t|
      ensures t[i].pos % alignment == 0 && offset <= t[i].pos < fileSize
      ensures t[i].Read? ==> t[i].len == len
      ensures t[i].Seek? <==> seek && i % 2 == 0
      ensures i == 0 ==> t[i].pos == offset
    {
      SampleAccessAt(src, fileSize, interval, alignment, len, seek, offset, i);
    }
    forall i | 0 < i < |t|
      ensures t[i].pos == t[i - 1].pos + (if seek && t[i].Read? then 0 else interval)
    {
      SampleSpacingAt(src, fileSize, interval, alignment, len, seek, offset, i);
    }
  }

  /** Every read the sampling loop makes before its last access went through. */
  lemma {:induction false} SampleOkBefore(src: ByteSource, fileSize: nat, interval: nat, alignment: nat, len: nat,
                                          seek: bool, offset: nat, i: nat)
    requires interval > 0 && alignment > 0 && interval % alignment == 0 && offset % alignment == 0
    requires var t := SampleCalls(src, fileSize, interval, alignment, len, seek, offset);
      i < |t| - 1 && t[i].Read?
    ensures var t := SampleCalls(src, fileSize, interval, alignment, len, seek, offset);
      SampleOk(src, t[i].pos, len, seek)
    decreases fileSize - offset
  {
    var t := SampleCalls(src, fileSize, interval, alignment, len, seek, offset);
    var a := AlignDown(offset, alignment);
    var step := SampleStep(src, a, len, seek);
    // the loop went on past this sample, so the sample went through
    assert SampleOk(src, a, len, seek);
    var rest := SampleCalls(src, fileSize, interval, alignment, len, seek, offset + interval);
    if i >= |step| {
      assert t[i] == rest[i - |step|];
      AddMultiple(offset, interval, alignment);
      SampleOkBefore(src, fileSize, interval, alignment, len, seek, offset + interval, i - |step|);
    } else {
      assert t[i] == step[i];
    }
  }

  /** The last access of the sampling loop: either its sample failed or the next position is past the end. */
  lemma {:induction false} SampleLast(src: ByteSource, fileSize: nat, interval: nat, alignment: nat, len: nat,
                                      seek: bool, offset: nat)
    requires interval > 0 && alignment > 0 && interval % alignment == 0 && offset % alignment == 0
    ensures var t := SampleCalls(src, fileSize, interval, alignment, len, seek, offset);
      && (|t| == 0 <==> offset >= fileSize)
      && (|t| > 0 ==> (t[|t| - 1].pos + interval >= fileSize || !SampleOk(src, t[|t| - 1].pos, len, seek)))
    decreases fileSize - offset
  {
    if offset < fileSize {
      var t := SampleCalls(src, fileSize, interval, alignment, len, seek, offset);
      var a := AlignDown(offset, alignment);
      var step := SampleStep(src, a, len, seek);
      if SampleOk(src, a, len, seek) {
        var rest := SampleCalls(src, fileSize, interval, alignment, len, seek, offset + interval);
        AddMultiple(offset, interval, alignment);
        SampleLast(src, fileSize, interval, alignment, len, seek, offset + interval);
        if rest == [] {
          assert t == step;
        } else {
          assert t[|t| - 1] == rest[|rest| - 1];
        }
      }
    }
  }

  /**
    The sampling loop stops at the first failure and nowhere else: every
    sample but the last went through, and the last one either failed or was
    the last position below the file size.
  */
  lemma SampleCallsStop(src: ByteSource, fileSize: nat, interval: nat, alignment: nat, len: nat,
                        seek: bool, offset: nat)
    requires interval > 0 && alignment > 0 && interval % alignment == 0 && offset % alignment == 0
    ensures var t := SampleCalls(src, fileSize, interval, alignment, len, seek, offset);
      && (|t| == 0 <==> offset >= fileSize)
      && (forall i :: 0 <= i < |t| - 1 && t[i].Read? ==> SampleOk(src, t[i].pos, len, seek))
      && (|t| > 0 ==> (t[|t| - 1].pos + interval >= fileSize || !SampleOk(src, t[|t| - 1].pos, len, seek)))
  {
    var t := SampleCalls(src, fileSize, interval, alignment, len, seek, offset);
    SampleLast(src, fileSize, interval, alignment, len, seek, offset);
    forall i | 0 <= i < |t| - 1 && t[i].Read?
      ensures SampleOk(src, t[i].pos, len, seek)
    {
      SampleOkBefore(src, fileSize, interval, alignment, len, seek, offset, i);
    }
  }

  /**
    When every seek and read the loop could make goes through, it samples
    every position up to the end: the last sample is within `interval` of
    the file size.
  */
  lemma SampleCallsComplete(src: ByteSource, fileSize: nat, interval: nat, alignment: nat, len: nat,
                            seek: bool, offset: nat)
    requires interval > 0 && alignment > 0 && interval % alignment == 0 && offset % alignment == 0
    requires forall p: nat :: p < fileSize ==> SampleOk(src, p, len, seek)
    ensures var t := SampleCalls(src, fileSize, interval, alignment, len, seek, offset);
      |t| > 0 ==> t[|t| - 1].pos + interval >= fileSize
  {
    var t := SampleCalls(src, fileSize, interval, alignment, len, seek, offset);
    SampleLast(src, fileSize, interval, alignment, len, seek, offset);
    if |t| > 0 {
      SampleAccessAt(src, fileSize, interval, alignment, len, seek, offset, |t| - 1);
    }
  }

  // ---------------------------------------------------------------------
  // Chunked reads
  // ---------------------------------------------------------------------

  /**
    `min(roundup(min(CHUNK_SIZE, remaining), ALIGNMENT), CHUNK_SIZE)`: a
    multiple of 4096, at most 1 MiB, and no smaller than what is left (up
    to 1 MiB).
  */
  function ChunkRequest(remaining: nat): (r: nat)
    ensures r % ALIGNMENT == 0 && r <= CHUNK_SIZE
    ensures Min(CHUNK_SIZE, remaining) <= r < Min(CHUNK_SIZE, remaining) + ALIGNMENT
    ensures remaining > 0 ==> r > 0
  {
    var readSize := Min(CHUNK_SIZE, remaining);
    Min(RoundUp(readSize, ALIGNMENT), CHUNK_SIZE)
  }

  /** Bytes the chunked loop's read at `pos` returns (0 when it fails). */
  function ChunkGot(src: ByteSource, fileSize: nat, pos: nat): nat
  {
    var r := ReadAt(src, pos, ChunkRequest(if pos <= fileSize then fileSize - pos else 0));
    if r.Got? then r.n else 0
  }

  /** The chunk at `pos` went through. */
  predicate ChunkOk(src: ByteSource, fileSize: nat, seek: bool, pos: nat)
    requires pos <= fileSize
  {
    SampleOk(src, pos, ChunkRequest(fileSize - pos), seek)
  }

  /**
    The chunked loop from `offset` on: `while offset < file_size { len :=
    ChunkRequest(file_size - offset); [seek(offset) or break]; read(offset,
    len): 0 or error => break, n => offset += n }`.
  */
  function ChunkCalls(src: ByteSource, fileSize: nat, seek: bool, offset: nat): seq<Access>
    decreases fileSize - offset
  {
    if offset >= fileSize then []
    else
      var step := SampleStep(src, offset, ChunkRequest(fileSize - offset), seek);
      if ChunkOk(src, fileSize, seek, offset) then
        step + ChunkCalls(src, fileSize, seek, offset + ChunkGot(src, fileSize, offset))
      else step
  }

  /** A read of the chunked loop asks for `ChunkRequest(file_size - pos)` bytes. */
  predicate RequestsChunk(c: Access, fileSize: nat)
  {
    c.Read? ==> c.pos <= fileSize && c.len == ChunkRequest(fileSize - c.pos)
  }

  /**
    The `i`-th access of the chunked loop: at or after `offset` and below the
    file size; with seeks, even accesses are the seeks; every read asks for
    `ChunkRequest(file_size - pos)` bytes (a multiple of 4096, at most 1 MiB).
  */
  lemma {:induction false} ChunkAccessAt(src: ByteSource, fileSize: nat, seek: bool, offset: nat, i: nat)
    requires i < |ChunkCalls(src, fileSize, seek, offset)|
    ensures var c := ChunkCalls(src, fileSize, seek, offset)[i];
      && offset <= c.pos < fileSize
      && RequestsChunk(c, fileSize)
      && (i == 0 ==> c.pos == offset)
    decreases fileSize - offset
  {
    var t := ChunkCalls(src, fileSize, seek, offset);
    var step := SampleStep(src, offset, ChunkRequest(fileSize - offset), seek);
    if ChunkOk(src, fileSize, seek, offset) {
      var next := offset + ChunkGot(src, fileSize, offset);
      var rest := ChunkCalls(src, fileSize, seek, next);
      assert t == step + rest;
      if i >= |step| {
        assert t[i] == rest[i - |step|];
        ChunkAccessAt(src, fileSize, seek, next, i - |step|);
      } else {
        assert t[i] == step[i];
      }
    } else {
      assert t == step;
    }
  }

  /** With seeks, the chunked loop's even accesses are its seeks and its odd ones its reads. */
  lemma {:induction false} ChunkParityAt(src: ByteSource, fileSize: nat, seek: bool, offset: nat, i: nat)
    requires i < |ChunkCalls(src, fileSize, seek, offset)|
    ensures ChunkCalls(src, fileSize, seek, offset)[i].Seek? <==> seek && i % 2 == 0
    decreases fileSize - offset
  {
    var t := ChunkCalls(src, fileSize, seek, offset);
    var step := SampleStep(src, offset, ChunkRequest(fileSize - offset), seek);
    if ChunkOk(src, fileSize, seek, offset) {
      var next := offset + ChunkGot(src, fileSize, offset);
      var rest := ChunkCalls(src, fileSize, seek, next);
      assert t == step + rest;
      if i >= |step| {
        assert t[i] == rest[i - |step|];
        ChunkParityAt(src, fileSize, seek, next, i - |step|);
        if seek {
          assert |step| == 2;
          ParityShift(i);
        }
      } else {
        assert t[i] == step[i];
      }
    } else {
      assert t == step;
    }
  }

  /**
    Consecutive accesses of the chunked loop: a read follows its seek at the
    same position; each next chunk starts where the bytes the previous read
    returned end.
  */
  lemma {:induction false} ChunkSpacingAt(src: ByteSource, fileSize: nat, seek: bool, offset: nat, i: nat)
    requires 0 < i < |ChunkCalls(src, fileSize, seek, offset)|
    ensures var t := ChunkCalls(src, fileSize, seek, offset);
      t[i].pos == if seek && t[i].Read? then t[i - 1].pos else t[i - 1].pos + ChunkGot(src, fileSize, t[i - 1].pos)
    decreases fileSize - offset
  {
    var t := ChunkCalls(src, fileSize, seek, offset);
    var step := SampleStep(src, offset, ChunkRequest(fileSize - offset), seek);
    if i >= |step| {
      var next := offset + ChunkGot(src, fileSize, offset);
      var rest := ChunkCalls(src, fileSize, seek, next);
      assert t[i] == rest[i - |step|] && t[i - 1] == (step + rest)[i - 1];
      if i > |step| {
        assert t[i - 1] == rest[i - 1 - |step|];
        ChunkSpacingAt(src, fileSize, seek, next, i - |step|);
      } else {
        ChunkAccessAt(src, fileSize, seek, next, 0);
      }
    }
  }

  /**
    Chunked reads start at `offset`, stay below the file size, ask for
    `ChunkRequest(file_size - pos)` bytes, and each next chunk starts where
    the bytes the previous read returned end.
  */
  lemma ChunkCallsShape(src: ByteSource, fileSize: nat, seek: bool, offset: nat)
    ensures var t := ChunkCalls(src, fileSize, seek, offset);
      && (forall i :: 0 <= i < |t| ==> offset <= t[i].pos < fileSize)
      && (forall i :: 0 <= i < |t| ==> RequestsChunk(t[i], fileSize))
      && (forall i :: 0 <= i < |t| ==> (t[i].Seek? <==> seek && i % 2 == 0))
      && (|t| > 0 ==> t[0].pos == offset)
      && (forall i :: 0 < i < |t| ==>
            t[i].pos == if seek && t[i].Read? then t[i - 1].pos else t[i - 1].pos + ChunkGot(src, fileSize, t[i - 1].pos))
  {
    var t := ChunkCalls(src, fileSize, seek, offset);
    forall i | 0 <= i < |t|
      ensures offset <= t[i].pos < fileSize
      ensures RequestsChunk(t[i], fileSize)
      ensures t[i].Seek? <==> seek && i % 2 == 0
      ensures i == 0 ==> t[i].pos == offset
    {
      ChunkAccessAt(src, fileSize, seek, offset, i);
      ChunkParityAt(src, fileSize, seek, offset, i);
    }
    forall i | 0 < i < |t|
      ensures t[i].pos == if seek && t[i].Read? then t[i - 1].pos else t[i - 1].pos + ChunkGot(src, fileSize, t[i - 1].pos)
    {
      ChunkSpacingAt(src, fileSize, seek, offset, i);
    }
  }

  /** Every chunk before the chunked loop's last access went through. */
  lemma {:induction false} ChunkOkBefore(src: ByteSource, fileSize: nat, seek: bool, offset: nat, i: nat)
    requires var t := ChunkCalls(src, fileSize, seek, offset);
      i < |t| - 1 && t[i].Read?
    ensures var t := ChunkCalls(src, fileSize, seek, offset);
      SampleOk(src, t[i].pos, t[i].len, seek)
    decreases fileSize - offset
  {
    var t := ChunkCalls(src, fileSize, seek, offset);
    var step := SampleStep(src, offset, ChunkRequest(fileSize - offset), seek);
    assert ChunkOk(src, fileSize, seek, offset);
    var next := offset + ChunkGot(src, fileSize, offset);
    var rest := ChunkCalls(src, fileSize, seek, next);
    if i >= |step| {
      assert t[i] == rest[i - |step|];
      ChunkOkBefore(src, fileSize, seek, next, i - |step|);
    } else {
      assert t[i] == step[i];
    }
  }

  /** The last access of the chunked loop: its chunk failed, or the bytes it returned reach the file size. */
  lemma {:induction false} ChunkLast(src: ByteSource, fileSize: nat, seek: bool, offset: nat)
    ensures var t := ChunkCalls(src, fileSize, seek, offset);
      |t| > 0 ==>
        (t[|t| - 1].pos + ChunkGot(src, fileSize, t[|t| - 1].pos) >= fileSize ||
         !ChunkOk(src, fileSize, seek, t[|t| - 1].pos))
    decreases fileSize - offset
  {
    if offset < fileSize {
      var t := ChunkCalls(src, fileSize, seek, offset);
      var step := SampleStep(src, offset, ChunkRequest(fileSize - offset), seek);
      if ChunkOk(src, fileSize, seek, offset) {
        var next := offset + ChunkGot(src, fileSize, offset);
        var rest := ChunkCalls(src, fileSize, seek, next);
        ChunkLast(src, fileSize, seek, next);
        assert t == step + rest;
        if rest == [] {
          assert t == step;
        } else {
          var k := |t| - 1;
          assert k - |step| == |rest| - 1;
          assert t[k] == rest[k - |step|];
        }
      }
    }
  }

  /**
    The chunked loop stops at the first failed seek, failed read or 0-byte
    read, and otherwise only when the bytes read reach the file size.
  */
  lemma ChunkCallsStop(src: ByteSource, fileSize: nat, seek: bool, offset: nat)
    ensures var t := ChunkCalls(src, fileSize, seek, offset);
      && (|t| == 0 <==> offset >= fileSize)
      && (forall i :: 0 <= i < |t| - 1 && t[i].Read? ==> SampleOk(src, t[i].pos, t[i].len, seek))
      && (|t| > 0 ==>
            (t[|t| - 1].pos + ChunkGot(src, fileSize, t[|t| - 1].pos) >= fileSize ||
             !ChunkOk(src, fileSize, seek, t[|t| - 1].pos)))
  {
    var t := ChunkCalls(src, fileSize, seek, offset);
    ChunkLast(src, fileSize, seek, offset);
    if offset < fileSize {
      assert |SampleStep(src, offset, ChunkRequest(fileSize - offset), seek)| > 0;
    }
    forall i | 0 <= i < |t| - 1 && t[i].Read?
      ensures SampleOk(src, t[i].pos, t[i].len, seek)
    {
      ChunkOkBefore(src, fileSize, seek, offset, i);
    }
  }

  // ---------------------------------------------------------------------
  // Streaming reads
  // ---------------------------------------------------------------------

  /** Bytes an 8192-byte read at `pos` returns (0 when it fails). */
  function StreamGot(src: ByteSource, pos: nat): nat
  {
    var r := ReadAt(src, pos, MANUAL_BUFFER);
    if r.Got? then r.n else 0
  }

  /** The manual full loop: `loop { read(8192): 0 or error => break, n => total += n }`, from `pos`. */
  function StreamCalls(src: ByteSource, pos: nat): seq<Access>
    decreases src.length - pos
  {
    var r := ReadAt(src, pos, MANUAL_BUFFER);
    if r.Got? && r.n > 0 then [Read(pos, MANUAL_BUFFER)] + StreamCalls(src, pos + r.n)
    else [Read(pos, MANUAL_BUFFER)]
  }

  /**
    The manual full loop reads 8192 bytes at a time, each read where the
    previous one's bytes end; when no read fails it reads the whole content
    and its last read is the 0-byte read at the end of the file.
  */
  lemma {:induction false} StreamCallsShape(src: ByteSource, pos: nat)
    ensures var t := StreamCalls(src, pos);
      && |t| > 0 && t[0].pos == pos
      && (forall i :: 0 <= i < |t| ==> t[i] == Read(t[i].pos, MANUAL_BUFFER))
      && (forall i :: 0 < i < |t| ==> t[i].pos == t[i - 1].pos + StreamGot(src, t[i - 1].pos))
      && ((forall p: nat, l: nat :: src.readOk(p, l)) && pos <= src.length ==> t[|t| - 1].pos == src.length)
    decreases src.length - pos
  {
    var r := ReadAt(src, pos, MANUAL_BUFFER);
    if r.Got? && r.n > 0 {
      var rest := StreamCalls(src, pos + r.n);
      StreamCallsShape(src, pos + r.n);
      var t := [Read(pos, MANUAL_BUFFER)] + rest;
      forall i | 0 < i < |t|
        ensures t[i].pos == t[i - 1].pos + StreamGot(src, t[i - 1].pos)
      {
        assert t[i] == rest[i - 1];
        if i > 1 {
          assert t[i - 1] == rest[i - 2];
        }
      }
      assert t[|t| - 1] == rest[|rest| - 1];
    } else if (forall p: nat, l: nat :: src.readOk(p, l)) && pos <= src.length {
      assert src.readOk(pos, MANUAL_BUFFER);
    }
  }

  /**
    Rounding each sample offset down to `a1` or to `a2` gives the same loop
    when both divide the interval and the start: every offset is then
    already aligned.
  */
  lemma {:induction false} SampleRealign(src: ByteSource, fileSize: nat, interval: nat, a1: nat, a2: nat, len: nat,
                                         seek: bool, offset: nat)
    requires interval > 0 && a1 > 0 && a2 > 0 && interval % a1 == 0 && interval % a2 == 0
    requires offset % a1 == 0 && offset % a2 == 0
    ensures SampleCalls(src, fileSize, interval, a1, len, seek, offset) ==
            SampleCalls(src, fileSize, interval, a2, len, seek, offset)
    decreases fileSize - offset
  {
    if offset < fileSize {
      assert AlignDown(offset, a1) == offset == AlignDown(offset, a2);
      AddMultiple(offset, interval, a1);
      AddMultiple(offset, interval, a2);
      SampleRealign(src, fileSize, interval, a1, a2, len, seek, offset + interval);
    }
  }


  // ---------------------------------------------------------------------
  // The loop invariants of the methods that run these loops: the accesses
  // `acc` made so far, followed by what the loop does from the current
  // position on, are what it does from the start.  A sample that goes
  // through appends its step and moves on; one that fails appends its step
  // and ends the loop.
  // ---------------------------------------------------------------------

  predicate SampleLoop(src: ByteSource, fileSize: nat, interval: nat, alignment: nat, len: nat, seek: bool,
                       acc: seq<Access>, offset: nat)
    requires interval > 0 && alignment > 0
  {
    acc + SampleCalls(src, fileSize, interval, alignment, len, seek, offset) ==
      SampleCalls(src, fileSize, interval, alignment, len, seek, 0)
  }

  lemma SampleAdvance(acc: seq<Access>, src: ByteSource, fileSize: nat, interval: nat, alignment: nat, len: nat,
                      seek: bool, offset: nat, a: nat)
    requires interval > 0 && alignment > 0 && offset < fileSize && a == AlignDown(offset, alignment)
    requires SampleOk(src, a, len, seek)
    requires SampleLoop(src, fileSize, interval, alignment, len, seek, acc, offset)
    ensures SampleLoop(src, fileSize, interval, alignment, len, seek, acc + SampleStep(src, a, len, seek), offset + interval)
  {
    var step := SampleStep(src, a, len, seek);
    var rest := SampleCalls(src, fileSize, interval, alignment, len, seek, offset + interval);
    assert SampleCalls(src, fileSize, interval, alignment, len, seek, offset) == step + rest;
    assert acc + (step + rest) == (acc + step) + rest;
  }

  lemma SampleIterate(acc: seq<Access>, src: ByteSource, fileSize: nat, interval: nat, alignment: nat, len: nat,
                      seek: bool, offset: nat, a: nat)
    requires interval > 0 && alignment > 0 && offset < fileSize && a == AlignDown(offset, alignment)
    requires SampleLoop(src, fileSize, interval, alignment, len, seek, acc, offset)
    ensures SampleStep(src, a, len, seek) ==
              if seek && !src.seekOk(a) then [Seek(a)] else if seek then [Seek(a), Read(a, len)] else [Read(a, len)]
    ensures SampleOk(src, a, len, seek) ==> SampleLoop(src, fileSize, interval, alignment, len, seek, acc + SampleStep(src, a, len, seek), offset + interval)
    ensures !SampleOk(src, a, len, seek) ==> acc + SampleStep(src, a, len, seek) == SampleCalls(src, fileSize, interval, alignment, len, seek, 0)
  {
    if SampleOk(src, a, len, seek) {
      SampleAdvance(acc, src, fileSize, interval, alignment, len, seek, offset, a);
    }
  }

  predicate ChunkLoop(src: ByteSource, fileSize: nat, seek: bool, acc: seq<Access>, offset: nat)
  {
    acc + ChunkCalls(src, fileSize, seek, offset) == ChunkCalls(src, fileSize, seek, 0)
  }

  lemma ChunkAdvance(acc: seq<Access>, src: ByteSource, fileSize: nat, seek: bool, offset: nat, n: nat)
    requires offset < fileSize && (!seek || src.seekOk(offset))
    requires ReadAt(src, offset, ChunkRequest(fileSize - offset)) == Got(n) && n > 0
    requires ChunkLoop(src, fileSize, seek, acc, offset)
    ensures ChunkLoop(src, fileSize, seek, acc + SampleStep(src, offset, ChunkRequest(fileSize - offset), seek), offset + n)
  {
    var step := SampleStep(src, offset, ChunkRequest(fileSize - offset), seek);
    var rest := ChunkCalls(src, fileSize, seek, offset + n);
    assert ChunkOk(src, fileSize, seek, offset) && ChunkGot(src, fileSize, offset) == n;
    assert ChunkCalls(src, fileSize, seek, offset) == step + rest;
    assert acc + (step + rest) == (acc + step) + rest;
  }

  lemma ChunkIterate(acc: seq<Access>, src: ByteSource, fileSize: nat, seek: bool, offset: nat)
    requires offset < fileSize && ChunkLoop(src, fileSize, seek, acc, offset)
    ensures var len := ChunkRequest(fileSize - offset);
      SampleStep(src, offset, len, seek) ==
        if seek && !src.seekOk(offset) then [Seek(offset)] else if seek then [Seek(offset), Read(offset, len)] else [Read(offset, len)]
    ensures var r := ReadAt(src, offset, ChunkRequest(fileSize - offset));
      ChunkOk(src, fileSize, seek, offset) <==> (!seek || src.seekOk(offset)) && r.Got? && r.n > 0
    ensures var r := ReadAt(src, offset, ChunkRequest(fileSize - offset));
      ChunkOk(src, fileSize, seek, offset) ==>
        ChunkLoop(src, fileSize, seek, acc + SampleStep(src, offset, ChunkRequest(fileSize - offset), seek), offset + r.n)
    ensures !ChunkOk(src, fileSize, seek, offset) ==>
      acc + SampleStep(src, offset, ChunkRequest(fileSize - offset), seek) == ChunkCalls(src, fileSize, seek, 0)
  {
    var r := ReadAt(src, offset, ChunkRequest(fileSize - offset));
    if ChunkOk(src, fileSize, seek, offset) {
      ChunkAdvance(acc, src, fileSize, seek, offset, r.n);
    }
  }

  predicate StreamLoop(src: ByteSource, acc: seq<Access>, pos: nat)
  {
    acc + StreamCalls(src, pos) == StreamCalls(src, 0)
  }

  lemma StreamAdvance(acc: seq<Access>, src: ByteSource, pos: nat, n: nat)
    requires ReadAt(src, pos, MANUAL_BUFFER) == Got(n) && n > 0
    requires StreamLoop(src, acc, pos)
    ensures StreamLoop(src, acc + [Read(pos, MANUAL_BUFFER)], pos + n)
  {
    var rest := StreamCalls(src, pos + n);
    assert StreamCalls(src, pos) == [Read(pos, MANUAL_BUFFER)] + rest;
    assert acc + ([Read(pos, MANUAL_BUFFER)] + rest) == (acc + [Read(pos, MANUAL_BUFFER)]) + rest;
  }

  lemma StreamIterate(acc: seq<Access>, src: ByteSource, pos: nat)
    requires StreamLoop(src, acc, pos)
    ensures var r := ReadAt(src, pos, MANUAL_BUFFER);
      if r.Got? && r.n > 0 then StreamLoop(src, acc + [Read(pos, MANUAL_BUFFER)], pos + r.n)
      else acc + [Read(pos, MANUAL_BUFFER)] == StreamCalls(src, 0)
  {
    var r := ReadAt(src, pos, MANUAL_BUFFER);
    if r.Got? && r.n > 0 {
      StreamAdvance(acc, src, pos, r.n);
    }
  }

}

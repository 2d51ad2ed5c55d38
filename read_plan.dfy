/**
  The read schedules of disk-warmer's I/O loops (disk-warmer/io_operations.c),
  as pure functions: which offsets phase 1 reads for an extent list, which
  reads phase 2 issues over the whole device, how the reads are cut into
  batches of at most `queue_depth`, and what the issued reads do to the
  warmed-block bitmap.  The methods in `DiskIo` are proved to follow them.
*/
module ReadPlan {
  import opened CInt
  import opened Extents
  import opened Bitmap

  // ---------------------------------------------------------------------
  // Phase 1: reads of an extent list
  // ---------------------------------------------------------------------

  /**
    The reads of extent `e` from `extent_offset == off` on: one at
    `physical_offset + off` while `length - off > 0`, then `off += stride`.
  */
  function OffsetsFrom(e: Extent, off: nat, stride: nat): seq<int>
    requires stride > 0
    decreases e.length - off
  {
    if e.length - off <= 0 then [] else [e.physicalOffset + off] + OffsetsFrom(e, off + stride, stride)
  }

  /** The reads of phase 1 from extent `index` on, extents in list order. */
  function ExtentReadsFrom(list: seq<Extent>, index: nat, stride: nat): seq<int>
    requires stride > 0 && index <= |list|
    decreases |list| - index
  {
    if index == |list| then [] else OffsetsFrom(list[index], 0, stride) + ExtentReadsFrom(list, index + 1, stride)
  }

  /** The reads of phase 1 for the whole list. */
  function ExtentReads(list: seq<Extent>, stride: nat): seq<int>
    requires stride > 0
  {
    ExtentReadsFrom(list, 0, stride)
  }

  /**
    The reads still to come at loop position (`extent_index`, `extent_offset`),
    one loop step at a time: an extent with nothing left is skipped, otherwise
    one read is issued and the offset advances by the stride.
  */
  function Rest(list: seq<Extent>, index: nat, off: nat, stride: nat): seq<int>
    requires stride > 0 && index <= |list|
    decreases |list| - index, if index < |list| then list[index].length - off else 0
  {
    if index == |list| then []
    else if list[index].length - off <= 0 then Rest(list, index + 1, 0, stride)
    else [list[index].physicalOffset + off] + Rest(list, index, off + stride, stride)
  }

  lemma AppendAssoc<T>(a: seq<T>, b: seq<T>, c: seq<T>)
    ensures (a + b) + c == a + (b + c)
  {
  }

  /** In the middle of extent `index`, what is left is the rest of that extent, then the later extents. */
  lemma {:induction false} RestSplit(list: seq<Extent>, index: nat, off: nat, stride: nat)
    requires stride > 0 && index < |list|
    ensures Rest(list, index, off, stride) ==
      OffsetsFrom(list[index], off, stride) + ExtentReadsFrom(list, index + 1, stride)
    decreases |list| - index, 0, list[index].length - off
  {
    if list[index].length - off <= 0 {
      RestFrom(list, index + 1, stride);
    } else {
      RestSplit(list, index, off + stride, stride);
      AppendAssoc([list[index].physicalOffset + off], OffsetsFrom(list[index], off + stride, stride),
                  ExtentReadsFrom(list, index + 1, stride));
    }
  }

  /** At the start of extent `index`, what is left is the reads of extents `index ..`. */
  lemma {:induction false} RestFrom(list: seq<Extent>, index: nat, stride: nat)
    requires stride > 0 && index <= |list|
    ensures Rest(list, index, 0, stride) == ExtentReadsFrom(list, index, stride)
    decreases |list| - index, 1
  {
    if index < |list| {
      RestSplit(list, index, 0, stride);
    }
  }

  /** The loop starts with the whole phase-1 schedule ahead of it. */
  lemma RestStart(list: seq<Extent>, stride: nat)
    requires stride > 0
    ensures Rest(list, 0, 0, stride) == ExtentReads(list, stride)
  {
    RestFrom(list, 0, stride);
  }

  lemma MulStep(k: int, stride: int)
    ensures k * stride == (k - 1) * stride + stride
  {
  }

  /**
    The reads of one extent are `physical_offset + off + k * stride` for
    exactly the k >= 0 with `off + k * stride < length`, in increasing k.
  */
  lemma {:induction false} OffsetsFromShape(e: Extent, off: nat, stride: nat)
    requires stride > 0
    ensures var r := OffsetsFrom(e, off, stride);
      (forall k :: 0 <= k < |r| ==> r[k] == e.physicalOffset + off + k * stride) &&
      (forall k: nat :: k < |r| <==> off + k * stride < e.length)
    decreases e.length - off
  {
    var r := OffsetsFrom(e, off, stride);
    if e.length - off > 0 {
      var tail := OffsetsFrom(e, off + stride, stride);
      OffsetsFromShape(e, off + stride, stride);
      forall k | 0 <= k < |r| ensures r[k] == e.physicalOffset + off + k * stride {
        if k > 0 {
          assert r[k] == tail[k - 1];
          MulStep(k, stride);
        }
      }
      forall k: nat ensures k < |r| <==> off + k * stride < e.length {
        if k > 0 {
          MulStep(k, stride);
          MulAtLeast(k, stride);
        }
      }
    } else {
      forall k: nat ensures k < |r| <==> off + k * stride < e.length {
        assert k * stride >= 0;
      }
    }
  }

  /** An extent of positive length reads `ceil(length / stride)` times, and one of length <= 0 never. */
  lemma {:induction false} OffsetsFromCount(e: Extent, off: nat, stride: nat)
    requires stride > 0
    ensures |OffsetsFrom(e, off, stride)| == if e.length - off <= 0 then 0 else (e.length - off + stride - 1) / stride
    decreases e.length - off
  {
    var d := e.length - off;
    if d > 0 {
      OffsetsFromCount(e, off + stride, stride);
      if d <= stride {
        assert OffsetsFrom(e, off + stride, stride) == [];
        DivUnique(d + stride - 1, stride, 1, d - 1);
      } else {
        var q := (d - 1) / stride;
        var r := (d - 1) % stride;
        assert e.length - (off + stride) + stride - 1 == d - 1;
        assert |OffsetsFrom(e, off + stride, stride)| == q;
        assert d - 1 == q * stride + r;
        MulStep(q + 1, stride);
        DivUnique(d + stride - 1, stride, q + 1, r);
      }
    }
  }

  /** The stride counts `(length + stride - 1) / stride`, C division, of the first n extents. */
  function StridesUpTo(list: seq<Extent>, n: nat, stride: nat): int
    requires stride > 0 && n <= |list|
  {
    if n == 0 then 0 else StridesUpTo(list, n - 1, stride) + Div(list[n - 1].length + stride - 1, stride)
  }

  /** `calculate_total_strides` without the `unsigned long long` wrap-around. */
  function TotalStrides(list: seq<Extent>, stride: nat): int
    requires stride > 0
  {
    StridesUpTo(list, |list|, stride)
  }

  /** One extent of non-negative length reads as often as its stride count says. */
  lemma ExtentStrides(e: Extent, stride: nat)
    requires stride > 0 && e.length >= 0
    ensures |OffsetsFrom(e, 0, stride)| == Div(e.length + stride - 1, stride)
  {
    OffsetsFromCount(e, 0, stride);
    if e.length == 0 {
      DivUnique(stride - 1, stride, 0, stride - 1);
    }
  }

  /** The reads from extent `index` on number the stride counts from there on. */
  lemma {:induction false} StridesCountReadsFrom(list: seq<Extent>, index: nat, stride: nat)
    requires stride > 0 && index <= |list|
    requires forall i :: 0 <= i < |list| ==> list[i].length >= 0
    ensures |ExtentReadsFrom(list, index, stride)| == TotalStrides(list, stride) - StridesUpTo(list, index, stride)
    decreases |list| - index
  {
    if index < |list| {
      StridesCountReadsFrom(list, index + 1, stride);
      ExtentStrides(list[index], stride);
      assert StridesUpTo(list, index + 1, stride) ==
        StridesUpTo(list, index, stride) + Div(list[index].length + stride - 1, stride);
      assert ExtentReadsFrom(list, index, stride) ==
        OffsetsFrom(list[index], 0, stride) + ExtentReadsFrom(list, index + 1, stride);
    }
  }

  /**
    With no negative lengths, `calculate_total_strides` counts exactly the
    reads phase 1 issues when no batch fails.
  */
  lemma TotalStridesCountsReads(list: seq<Extent>, stride: nat)
    requires stride > 0
    requires forall i :: 0 <= i < |list| ==> list[i].length >= 0
    ensures TotalStrides(list, stride) == |ExtentReads(list, stride)|
  {
    StridesCountReadsFrom(list, 0, stride);
  }

  // ---------------------------------------------------------------------
  // Phase 2: reads of the rest of the device
  // ---------------------------------------------------------------------

  /** A read of `length` bytes at `offset`. */
  datatype Read = Read(offset: int, length: int)

  /** `read_length`: the read size, clamped so the read ends at the device size. */
  function ClampedLength(offset: int, readSize: int, diskSize: int): int
  {
    if offset + readSize > diskSize then diskSize - offset else readSize
  }

  /**
    The reads of phase 2 from `current_offset == cur` on: every stride offset
    below the device size that the bitmap (its bytes) does not mark.
  */
  function DiskReads(bytes: seq<bv8>, blockSize: nat, diskSize: int, readSize: int, stride: nat, cur: nat): seq<Read>
    requires stride > 0 && blockSize > 0
    decreases diskSize - cur
  {
    if cur >= diskSize then []
    else if IsMarkedIn(bytes, blockSize, cur) then DiskReads(bytes, blockSize, diskSize, readSize, stride, cur + stride)
    else [Read(cur, ClampedLength(cur, readSize, diskSize))] + DiskReads(bytes, blockSize, diskSize, readSize, stride, cur + stride)
  }

  /** The reads phase 2 issues when no batch fails dispatch. */
  function RemainingReads(bytes: seq<bv8>, blockSize: nat, diskSize: int, readSize: int, stride: nat): seq<Read>
    requires stride > 0 && blockSize > 0
  {
    DiskReads(bytes, blockSize, diskSize, readSize, stride, 0)
  }

  /** A phase-2 read from position `cur` with stride `stride`. */
  predicate PlannedRead(r: Read, bytes: seq<bv8>, blockSize: nat, diskSize: int, readSize: int, stride: nat, cur: nat)
    requires stride > 0 && blockSize > 0
  {
    cur <= r.offset < diskSize && (r.offset - cur) % stride == 0 &&
    !IsMarkedIn(bytes, blockSize, r.offset) &&
    r.length == ClampedLength(r.offset, readSize, diskSize)
  }

  lemma ModShift(x: nat, d: nat)
    requires d > 0
    ensures (x + d) % d == x % d
  {
    DivUnique(x + d, d, x / d + 1, x % d);
  }

  /** A read planned from one stride further on is planned from here too. */
  lemma PlannedEarlier(r: Read, bytes: seq<bv8>, blockSize: nat, diskSize: int, readSize: int, stride: nat, cur: nat)
    requires stride > 0 && blockSize > 0
    requires PlannedRead(r, bytes, blockSize, diskSize, readSize, stride, cur + stride)
    ensures PlannedRead(r, bytes, blockSize, diskSize, readSize, stride, cur)
  {
    var x := r.offset - (cur + stride);
    ModShift(x, stride);
    assert r.offset - cur == x + stride;
  }

  /**
    Phase 2 reads exactly the unmarked stride offsets below the device size,
    in increasing order, each clamped to the device: no read ends past
    `disk_size`.
  */
  lemma {:induction false} DiskReadsShape(bytes: seq<bv8>, blockSize: nat, diskSize: int, readSize: int,
                                          stride: nat, cur: nat)
    requires stride > 0 && blockSize > 0
    ensures forall r :: r in DiskReads(bytes, blockSize, diskSize, readSize, stride, cur) ==>
      PlannedRead(r, bytes, blockSize, diskSize, readSize, stride, cur) && r.offset + r.length <= diskSize
    decreases diskSize - cur
  {
    var rs := DiskReads(bytes, blockSize, diskSize, readSize, stride, cur);
    if cur < diskSize {
      var tail := DiskReads(bytes, blockSize, diskSize, readSize, stride, cur + stride);
      assert forall r :: r in tail ==>
        PlannedRead(r, bytes, blockSize, diskSize, readSize, stride, cur) && r.offset + r.length <= diskSize by {
        DiskReadsShape(bytes, blockSize, diskSize, readSize, stride, cur + stride);
        forall r | r in tail ensures PlannedRead(r, bytes, blockSize, diskSize, readSize, stride, cur) {
          PlannedEarlier(r, bytes, blockSize, diskSize, readSize, stride, cur);
        }
      }
      if IsMarkedIn(bytes, blockSize, cur) {
        assert rs == tail;
      } else {
        var head := Read(cur, ClampedLength(cur, readSize, diskSize));
        assert PlannedRead(head, bytes, blockSize, diskSize, readSize, stride, cur) && head.offset + head.length <= diskSize;
        assert rs == [head] + tail;
      }
    }
  }

  lemma {:induction false} DiskReadsAbove(bytes: seq<bv8>, blockSize: nat, diskSize: int, readSize: int,
                                          stride: nat, cur: nat)
    requires stride > 0 && blockSize > 0
    ensures forall r :: r in DiskReads(bytes, blockSize, diskSize, readSize, stride, cur) ==> cur <= r.offset
    decreases diskSize - cur
  {
    if cur < diskSize {
      DiskReadsAbove(bytes, blockSize, diskSize, readSize, stride, cur + stride);
    }
  }

  predicate OffsetsIncrease(rs: seq<Read>)
  {
    forall i, j :: 0 <= i < j < |rs| ==> rs[i].offset < rs[j].offset
  }

  /** Phase 2 reads the device front to back: offsets strictly increase. */
  lemma {:induction false} DiskReadsIncreasing(bytes: seq<bv8>, blockSize: nat, diskSize: int, readSize: int,
                                               stride: nat, cur: nat)
    requires stride > 0 && blockSize > 0
    ensures OffsetsIncrease(DiskReads(bytes, blockSize, diskSize, readSize, stride, cur))
    decreases diskSize - cur
  {
    if cur < diskSize {
      var rs := DiskReads(bytes, blockSize, diskSize, readSize, stride, cur);
      var tail := DiskReads(bytes, blockSize, diskSize, readSize, stride, cur + stride);
      DiskReadsIncreasing(bytes, blockSize, diskSize, readSize, stride, cur + stride);
      if IsMarkedIn(bytes, blockSize, cur) {
        assert rs == tail;
      } else {
        DiskReadsAbove(bytes, blockSize, diskSize, readSize, stride, cur + stride);
        assert rs == [Read(cur, ClampedLength(cur, readSize, diskSize))] + tail;
        forall i, j | 0 <= i < j < |rs| ensures rs[i].offset < rs[j].offset {
          assert rs[j] == tail[j - 1];
          if i == 0 {
            assert tail[j - 1] in tail;
          } else {
            assert rs[i] == tail[i - 1];
          }
        }
      }
    }
  }

  /** Phase 2 misses no unmarked stride offset below the device size. */
  lemma {:induction false} DiskReadsComplete(bytes: seq<bv8>, blockSize: nat, diskSize: int, readSize: int,
                                             stride: nat, cur: nat, k: nat)
    requires stride > 0 && blockSize > 0
    requires cur + k * stride < diskSize && !IsMarkedIn(bytes, blockSize, cur + k * stride)
    ensures Read(cur + k * stride, ClampedLength(cur + k * stride, readSize, diskSize))
      in DiskReads(bytes, blockSize, diskSize, readSize, stride, cur)
    decreases k
  {
    if k > 0 {
      MulStep(k, stride);
      DiskReadsComplete(bytes, blockSize, diskSize, readSize, stride, cur + stride, k - 1);
    }
  }

  // ---------------------------------------------------------------------
  // Batching
  // ---------------------------------------------------------------------

  function Flatten<T>(batches: seq<seq<T>>): seq<T>
  {
    if batches == [] then [] else batches[0] + Flatten(batches[1..])
  }

  lemma {:induction false} FlattenAppend<T>(a: seq<seq<T>>, b: seq<seq<T>>)
    ensures Flatten(a + b) == Flatten(a) + Flatten(b)
  {
    if a != [] {
      assert (a + b)[1..] == a[1..] + b;
      FlattenAppend(a[1..], b);
    } else {
      assert a + b == b;
    }
  }

  /**
    The libaio batches: each inner loop fills a batch up to `queue_depth`
    reads (or the end of the schedule); a queue depth of 0 prepares nothing.
  */
  function Chunks<T>(s: seq<T>, queueDepth: nat): seq<seq<T>>
    decreases |s|
  {
    if queueDepth == 0 || s == [] then []
    else
      var n := Min(queueDepth, |s|);
      [s[..n]] + Chunks(s[n..], queueDepth)
  }

  /**
    Cutting a schedule into batches loses and reorders nothing; every batch
    holds between 1 and `queue_depth` reads, and every batch but the last is
    full.
  */
  lemma {:induction false} ChunksShape<T>(s: seq<T>, queueDepth: nat)
    requires queueDepth > 0
    ensures var cs := Chunks(s, queueDepth);
      && Flatten(cs) == s
      && (forall i :: 0 <= i < |cs| ==> 1 <= |cs[i]| <= queueDepth)
      && (forall i :: 0 <= i < |cs| - 1 ==> |cs[i]| == queueDepth)
    decreases |s|
  {
    if s != [] {
      var n := Min(queueDepth, |s|);
      ChunksShape(s[n..], queueDepth);
      assert s[..n] + s[n..] == s;
      var cs := Chunks(s, queueDepth);
      assert cs[1..] == Chunks(s[n..], queueDepth);
      forall i | 0 < i < |cs| ensures cs[i] == Chunks(s[n..], queueDepth)[i - 1] { }
    }
  }

  lemma ChunksStep<T>(rest0: seq<T>, batch: seq<T>, rest1: seq<T>, queueDepth: nat)
    requires batch + rest1 == rest0 && |batch| == Min(queueDepth, |rest0|) && |batch| > 0
    ensures Chunks(rest0, queueDepth) == [batch] + Chunks(rest1, queueDepth)
  {
    assert rest0[..|batch|] == batch;
    assert rest0[|batch|..] == rest1;
  }

  /** A batch the kernel took whole: `io_submit` and `io_getevents` both returned its size. */
  predicate AioBatchOk(size: nat, submitted: int, completed: int)
  {
    submitted == size && completed == size
  }

  /**
    The batches a libaio loop prepares: batch b is dispatched; when its
    `io_submit` (`submitResult(b)`) or `io_getevents` (`eventsResult(b)`)
    result falls short, the loop breaks after it.
  */
  function AioBatches<T>(chunks: seq<seq<T>>, submitResult: nat -> int, eventsResult: nat -> int, b: nat): seq<seq<T>>
    decreases |chunks|
  {
    if chunks == [] then []
    else if AioBatchOk(|chunks[0]|, submitResult(b), eventsResult(b)) then
      [chunks[0]] + AioBatches(chunks[1..], submitResult, eventsResult, b + 1)
    else [chunks[0]]
  }

  /** The prepared batches are a prefix of the schedule's batches, and at least one is prepared. */
  lemma {:induction false} AioBatchesPrefix<T>(chunks: seq<seq<T>>, submitResult: nat -> int, eventsResult: nat -> int, b: nat)
    ensures var bs := AioBatches(chunks, submitResult, eventsResult, b);
      && |bs| <= |chunks| && bs == chunks[..|bs|]
      && (chunks != [] ==> bs != [])
    decreases |chunks|
  {
    if chunks != [] && AioBatchOk(|chunks[0]|, submitResult(b), eventsResult(b)) {
      AioBatchesPrefix(chunks[1..], submitResult, eventsResult, b + 1);
      var bs := AioBatches(chunks, submitResult, eventsResult, b);
      assert chunks == [chunks[0]] + chunks[1..];
      assert bs == chunks[..|bs|];
    }
  }

  /**
    Every prepared batch but the last was taken whole, and the loop stops
    before the end of the schedule only after a batch that was not.
  */
  lemma {:induction false} AioBatchesStop<T>(chunks: seq<seq<T>>, submitResult: nat -> int, eventsResult: nat -> int, b: nat)
    ensures var bs := AioBatches(chunks, submitResult, eventsResult, b);
      && (forall i :: 0 <= i < |bs| - 1 ==> AioBatchOk(|bs[i]|, submitResult(b + i), eventsResult(b + i)))
      && (|bs| < |chunks| ==> bs != [] && !AioBatchOk(|bs[|bs| - 1]|, submitResult(b + |bs| - 1), eventsResult(b + |bs| - 1)))
    decreases |chunks|
  {
    if chunks != [] && AioBatchOk(|chunks[0]|, submitResult(b), eventsResult(b)) {
      var tail := AioBatches(chunks[1..], submitResult, eventsResult, b + 1);
      AioBatchesStop(chunks[1..], submitResult, eventsResult, b + 1);
      AioBatchesPrefix(chunks[1..], submitResult, eventsResult, b + 1);
      var bs := [chunks[0]] + tail;
      forall i | 0 <= i < |bs| - 1 ensures AioBatchOk(|bs[i]|, submitResult(b + i), eventsResult(b + i)) {
        if i > 0 {
          assert bs[i] == tail[i - 1];
          assert b + 1 + (i - 1) == b + i;
        }
      }
      if |bs| < |chunks| {
        assert bs[|bs| - 1] == tail[|tail| - 1];
      }
    }
  }

  /** When every batch is taken whole, all of the schedule's batches are prepared. */
  lemma {:induction false} AioBatchesAllOk<T>(chunks: seq<seq<T>>, submitResult: nat -> int, eventsResult: nat -> int, b: nat)
    requires forall i :: 0 <= i < |chunks| ==> AioBatchOk(|chunks[i]|, submitResult(b + i), eventsResult(b + i))
    ensures AioBatches(chunks, submitResult, eventsResult, b) == chunks
    decreases |chunks|
  {
    if chunks != [] {
      assert AioBatchOk(|chunks[0]|, submitResult(b + 0), eventsResult(b + 0));
      forall i | 0 <= i < |chunks[1..]| ensures AioBatchOk(|chunks[1..][i]|, submitResult(b + 1 + i), eventsResult(b + 1 + i)) {
        assert chunks[1..][i] == chunks[i + 1];
        assert b + 1 + i == b + (i + 1);
      }
      AioBatchesAllOk(chunks[1..], submitResult, eventsResult, b + 1);
    }
  }

  /**
    The io_uring batches: batch b also stops when `io_uring_get_sqe` finds
    the submission ring full, after `sqeLimit(b)` entries; an empty batch
    ends the loop.
  */
  function UringBatches<T>(s: seq<T>, queueDepth: nat, sqeLimit: nat -> nat, b: nat): seq<seq<T>>
    decreases |s|
  {
    if queueDepth == 0 || s == [] then []
    else
      var n := Min(Min(queueDepth, sqeLimit(b)), |s|);
      if n == 0 then [] else [s[..n]] + UringBatches(s[n..], queueDepth, sqeLimit, b + 1)
  }

  /** The io_uring batches issue a prefix of the schedule, each batch bounded by the free ring entries. */
  lemma {:induction false} UringBatchesShape<T>(s: seq<T>, queueDepth: nat, sqeLimit: nat -> nat, b: nat)
    ensures var bs := UringBatches(s, queueDepth, sqeLimit, b);
      && |Flatten(bs)| <= |s| && Flatten(bs) == s[..|Flatten(bs)|]
      && (forall i :: 0 <= i < |bs| ==> 1 <= |bs[i]| <= queueDepth && |bs[i]| <= sqeLimit(b + i))
    decreases |s|
  {
    if queueDepth > 0 && s != [] {
      var n := Min(Min(queueDepth, sqeLimit(b)), |s|);
      if n > 0 {
        var bs := UringBatches(s, queueDepth, sqeLimit, b);
        var tail := UringBatches(s[n..], queueDepth, sqeLimit, b + 1);
        UringBatchesShape(s[n..], queueDepth, sqeLimit, b + 1);
        assert bs[1..] == tail;
        assert Flatten(bs) == s[..n] + Flatten(tail);
        assert s[..n] + s[n..][..|Flatten(tail)|] == s[..n + |Flatten(tail)|];
        forall i | 0 < i < |bs| ensures 1 <= |bs[i]| <= queueDepth && |bs[i]| <= sqeLimit(b + i) {
          assert bs[i] == tail[i - 1];
          assert b + 1 + (i - 1) == b + i;
        }
      }
    }
  }

  /** When the ring always has `queue_depth` free entries, io_uring batches are the libaio batches. */
  lemma {:induction false} UringBatchesWithRoom<T>(s: seq<T>, queueDepth: nat, sqeLimit: nat -> nat, b: nat)
    requires forall i: nat :: sqeLimit(i) >= queueDepth
    ensures UringBatches(s, queueDepth, sqeLimit, b) == Chunks(s, queueDepth)
    decreases |s|
  {
    if queueDepth > 0 && s != [] {
      var n := Min(queueDepth, |s|);
      assert Min(Min(queueDepth, sqeLimit(b)), |s|) == n;
      UringBatchesWithRoom(s[n..], queueDepth, sqeLimit, b + 1);
    }
  }

  // ---------------------------------------------------------------------
  // Marking the bitmap
  // ---------------------------------------------------------------------

  /** The bitmap bytes after `bitmap_mark_range(offset, read_size)` for each read, in order. */
  function MarkReads(bytes: seq<bv8>, offsets: seq<int>, readSize: int, diskSize: nat, blockSize: nat): (r: seq<bv8>)
    requires blockSize > 0
    requires forall i :: 0 <= i < |offsets| ==> offsets[i] >= 0
    ensures |r| == |bytes|
  {
    if offsets == [] then bytes
    else
      MarkRangeBytes(MarkReads(bytes, offsets[..|offsets| - 1], readSize, diskSize, blockSize),
                     diskSize, blockSize, offsets[|offsets| - 1], readSize)
  }

  /** Marking two runs of reads one after the other marks their concatenation. */
  lemma {:induction false} MarkReadsAppend(bytes: seq<bv8>, a: seq<int>, b: seq<int>, readSize: int, diskSize: nat,
                                           blockSize: nat)
    requires blockSize > 0
    requires forall i :: 0 <= i < |a| ==> a[i] >= 0
    requires forall i :: 0 <= i < |b| ==> b[i] >= 0
    ensures forall i :: 0 <= i < |a + b| ==> (a + b)[i] >= 0
    ensures MarkReads(MarkReads(bytes, a, readSize, diskSize, blockSize), b, readSize, diskSize, blockSize) ==
      MarkReads(bytes, a + b, readSize, diskSize, blockSize)
    decreases |b|
  {
    assert forall i :: 0 <= i < |a + b| ==> (a + b)[i] >= 0 by {
      forall i | 0 <= i < |a + b| ensures (a + b)[i] >= 0 {
        if i >= |a| {
          assert (a + b)[i] == b[i - |a|];
        }
      }
    }
    if b == [] {
      assert a + b == a;
    } else {
      var init := b[..|b| - 1];
      MarkReadsAppend(bytes, a, init, readSize, diskSize, blockSize);
      assert (a + b)[..|a + b| - 1] == a + init;
      assert (a + b)[|a + b| - 1] == b[|b| - 1];
    }
  }

  /** Block b is one `bitmap_mark_range(start, length)` sets. */
  predicate Covers(start: nat, length: int, diskSize: nat, blockSize: nat, b: nat)
    requires blockSize > 0
  {
    FirstBlock(start, blockSize) <= b <= LastBlock(start, length, blockSize) && b < diskSize / blockSize
  }

  /**
    After marking a sequence of offsets a block is marked exactly when it was
    marked before or some read's range covers it.
  */
  lemma {:induction false} MarkReadsBits(bytes: seq<bv8>, offsets: seq<int>, readSize: int, diskSize: nat,
                                         blockSize: nat, b: nat)
    requires blockSize > 0 && |bytes| == BitmapBytes(diskSize, blockSize)
    requires forall i :: 0 <= i < |offsets| ==> offsets[i] >= 0
    ensures BlockBit(MarkReads(bytes, offsets, readSize, diskSize, blockSize), b) <==>
      BlockBit(bytes, b) || exists i :: 0 <= i < |offsets| && Covers(offsets[i], readSize, diskSize, blockSize, b)
  {
    if offsets != [] {
      var init := offsets[..|offsets| - 1];
      var last := offsets[|offsets| - 1];
      MarkReadsBits(bytes, init, readSize, diskSize, blockSize, b);
      MarkRangeMarks(MarkReads(bytes, init, readSize, diskSize, blockSize), diskSize, blockSize, last, readSize, b);
      if exists i :: 0 <= i < |offsets| && Covers(offsets[i], readSize, diskSize, blockSize, b) {
        var i :| 0 <= i < |offsets| && Covers(offsets[i], readSize, diskSize, blockSize, b);
        if i < |offsets| - 1 {
          assert init[i] == offsets[i];
        }
      }
      if exists i :: 0 <= i < |init| && Covers(init[i], readSize, diskSize, blockSize, b) {
        var i :| 0 <= i < |init| && Covers(init[i], readSize, diskSize, blockSize, b);
        assert offsets[i] == init[i];
      }
    }
  }
}

/**
  The aligned buffer pool used by the C warmers (`allocate_aligned_buffers` /
  `free_aligned_buffers`, the same code in disk-warmer and page-cache-warmer).
  Each `posix_memalign` call is an input outcome; what the functions do with
  memory is recorded as a trace of `Resources` events.
*/
module AlignedBuffers {
  import opened Resources

  const DEFAULT_ALIGNMENT_BYTES: nat := 512

  /** Index of the first failing allocation in `ok`, or |ok| if none fails. */
  function FirstFailure(ok: seq<bool>): (f: nat)
    ensures f <= |ok|
    ensures forall i :: 0 <= i < f ==> ok[i]
    ensures f < |ok| ==> !ok[f]
  {
    if ok == [] || !ok[0] then 0 else 1 + FirstFailure(ok[1..])
  }

  /**
    `allocate_aligned_buffers(buffers, count, size)`: on success (0) buffers
    0..count-1 are held; on the first failing `posix_memalign` at index f it
    frees buffers 0..f-1 in order and returns -1, holding nothing.
    `memalignOk[i]` is the outcome of the i-th `posix_memalign`.
  */
  method AllocateAlignedBuffers(count: nat, memalignOk: seq<bool>) returns (rc: int, trace: seq<Event>)
    requires |memalignOk| == count
    ensures rc == 0 || rc == -1
    ensures rc == 0 <==> (forall i :: 0 <= i < count ==> memalignOk[i])
    ensures rc == 0 ==> trace == AcquireBuffers(0, count)
    ensures rc == -1 ==> trace == AcquireBuffers(0, FirstFailure(memalignOk)) + ReleaseBuffers(0, FirstFailure(memalignOk))
    ensures WellFormed(trace)
    ensures rc == 0 ==> Live(trace) == BufferSet(0, count)
    ensures rc == -1 ==> Balanced(trace)
  {
    trace := [];
    var i := 0;
    while i < count
      invariant 0 <= i <= count
      invariant forall j :: 0 <= j < i ==> memalignOk[j]
      invariant trace == AcquireBuffers(0, i)
    {
      if !memalignOk[i] {
        var j := 0;
        while j < i
          invariant 0 <= j <= i
          invariant trace == AcquireBuffers(0, i) + ReleaseBuffers(0, j)
        {
          trace := trace + [Release(Buffer(j))];
          j := j + 1;
        }
        FirstFailureAt(memalignOk, i);
        PoolBalanced(i);
        return -1, trace;
      }
      trace := trace + [Acquire(Buffer(i))];
      i := i + 1;
    }
    AcquiredPool(count);
    rc := 0;
  }

  /** `free_aligned_buffers(buffers, count)`: frees buffers 0..count-1 in order. */
  method FreeAlignedBuffers(count: nat) returns (trace: seq<Event>)
    ensures trace == ReleaseBuffers(0, count)
  {
    trace := [];
    var i := 0;
    while i < count
      invariant 0 <= i <= count
      invariant trace == ReleaseBuffers(0, i)
    {
      trace := trace + [Release(Buffer(i))];
      i := i + 1;
    }
  }

  lemma FirstFailureAt(ok: seq<bool>, f: nat)
    requires f < |ok| && !ok[f] && forall i :: 0 <= i < f ==> ok[i]
    ensures FirstFailure(ok) == f
  {
  }

  lemma AcquiredPool(n: nat)
    ensures WellFormed(AcquireBuffers(0, n)) && Live(AcquireBuffers(0, n)) == BufferSet(0, n)
  {
    assert WellFormed([]) && Live([]) == {};
    ReplayAcquireBuffers([], 0, n);
    assert [] + AcquireBuffers(0, n) == AcquireBuffers(0, n);
  }
}

/**
  Per-file accounting in rust-cache-warmer/src/main.rs: for each path of a
  received batch the warmer reads its metadata, logs its size bucket, skips
  it when it is over `max_file_size`, and otherwise calls `warm_file`; the
  shared counters `processed_files` and `total_bytes_warmed` are `AtomicU64`s
  updated with `fetch_add`, which wraps around at 2^64.  Batches are handled
  one after the other here; the sums do not depend on the order.
*/
module Accounting {
  import opened CInt
  import opened Wrappers
  import Discovery
  import ReadPlan

  type Path = Discovery.Path

  /** `fetch_add` on an `AtomicU64`: the sum modulo 2^64. */
  function WrapAdd(a: nat, b: nat): (r: nat)
    ensures IsU64(r)
    ensures a + b < U64_MODULUS ==> r == a + b
    ensures r % U64_MODULUS == (a + b) % U64_MODULUS
  {
    (a + b) % U64_MODULUS
  }

  lemma ModAdd(a: nat, b: nat, m: nat)
    requires m > 0
    ensures (a % m + b) % m == (a + b) % m
  {
    var t := a % m + b;
    assert a == (a / m) * m + a % m;
    assert t == (t / m) * m + t % m;
    assert a + b == (a / m + t / m) * m + t % m;
    DivUnique(a + b, m, a / m + t / m, t % m);
  }

  /** Adding to a counter that already holds a wrapped sum keeps it the wrapped sum. */
  lemma WrapStep(base: nat, prefix: nat, added: nat, current: nat)
    requires current == (base + prefix) % U64_MODULUS
    ensures WrapAdd(current, added) == (base + (prefix + added)) % U64_MODULUS
  {
    ModAdd(base + prefix, added, U64_MODULUS);
  }

  /** Which of the three points a path is counted at. */
  datatype Fate = MetadataFailed | Oversize(size: nat) | Warmed(size: nat)

  /** `metadata` is the outcome of `tokio::fs::metadata`: the file's length, or an error. */
  function FateOf(metadata: Option<nat>, maxFileSize: nat): Fate
  {
    match metadata
    case None => MetadataFailed
    case Some(size) => if maxFileSize > 0 && size > maxFileSize then Oversize(size) else Warmed(size)
  }

  /** The bytes a path adds to `total_bytes_warmed`. */
  function AddedBytes(f: Fate): nat
  {
    if f.Warmed? then f.size else 0
  }

  /** The size buckets of the debug log. */
  datatype SizeCategory = Tiny | Small | Medium | Large | Huge

  function Categorize(size: nat): SizeCategory
  {
    if size <= 4096 then Tiny
    else if size <= 65536 then Small
    else if size <= 1048576 then Medium
    else if size <= 104857600 then Large
    else Huge
  }

  /** The buckets in increasing order. */
  function Rank(c: SizeCategory): nat
  {
    match c
    case Tiny => 0
    case Small => 1
    case Medium => 2
    case Large => 3
    case Huge => 4
  }

  /** The size range of each bucket, as the table of the `match` gives it. */
  predicate InBucket(c: SizeCategory, size: nat)
  {
    match c
    case Tiny => size <= 4096
    case Small => 4097 <= size <= 65536
    case Medium => 65537 <= size <= 1048576
    case Large => 1048577 <= size <= 104857600
    case Huge => 104857600 < size
  }

  /**
    The buckets partition the sizes: each size is in the bucket `Categorize`
    gives and in no other, and a bigger file is never in a smaller bucket.
  */
  lemma CategoriesPartition(size: nat, other: nat)
    ensures InBucket(Categorize(size), size)
    ensures forall c :: InBucket(c, size) ==> c == Categorize(size)
    ensures size <= other ==> Rank(Categorize(size)) <= Rank(Categorize(other))
  {
  }

  /** The paths of a batch, with their metadata outcomes, by fate. */
  function Fates(paths: seq<Path>, metadata: Path -> Option<nat>, maxFileSize: nat): (fs: seq<Fate>)
    ensures |fs| == |paths|
  {
    if paths == [] then []
    else Fates(paths[..|paths| - 1], metadata, maxFileSize) + [FateOf(metadata(paths[|paths| - 1]), maxFileSize)]
  }

  /** The calls to `warm_file` a batch makes: each path that was neither unreadable nor oversize, with its size. */
  function WarmCalls(paths: seq<Path>, metadata: Path -> Option<nat>, maxFileSize: nat): seq<(Path, nat)>
  {
    if paths == [] then []
    else
      var last := paths[|paths| - 1];
      var f := FateOf(metadata(last), maxFileSize);
      WarmCalls(paths[..|paths| - 1], metadata, maxFileSize) + (if f.Warmed? then [(last, f.size)] else [])
  }

  /** The bytes a batch adds, before wrap-around. */
  function Bytes(paths: seq<Path>, metadata: Path -> Option<nat>, maxFileSize: nat): nat
  {
    if paths == [] then 0
    else
      Bytes(paths[..|paths| - 1], metadata, maxFileSize) +
      AddedBytes(FateOf(metadata(paths[|paths| - 1]), maxFileSize))
  }

  /** How many of `fates` satisfy `kind`. */
  function CountOf(fates: seq<Fate>, kind: Fate -> bool): nat
  {
    if fates == [] then 0 else CountOf(fates[..|fates| - 1], kind) + (if kind(fates[|fates| - 1]) then 1 else 0)
  }

  function SumSizes(calls: seq<(Path, nat)>): nat
  {
    if calls == [] then 0 else SumSizes(calls[..|calls| - 1]) + calls[|calls| - 1].1
  }

  // ---------------------------------------------------------------------
  // Properties
  // ---------------------------------------------------------------------

  /**
    Each path is counted at exactly one of the three points: the metadata
    failures, the oversize skips and the `warm_file` calls add up to the
    batch.  No skipped file reaches `warm_file`: each call's size is within
    `max_file_size` when that is set, and the bytes added are exactly the
    sizes passed to `warm_file`.
  */
  lemma {:induction false} BatchPartition(paths: seq<Path>, metadata: Path -> Option<nat>, maxFileSize: nat)
    ensures var fs := Fates(paths, metadata, maxFileSize);
      var calls := WarmCalls(paths, metadata, maxFileSize);
      && CountOf(fs, (f: Fate) => f.MetadataFailed?) + CountOf(fs, (f: Fate) => f.Oversize?) + |calls| == |paths|
      && |calls| == CountOf(fs, (f: Fate) => f.Warmed?)
      && (forall i :: 0 <= i < |calls| ==> metadata(calls[i].0) == Some(calls[i].1))
      && (forall i :: 0 <= i < |calls| ==> maxFileSize == 0 || calls[i].1 <= maxFileSize)
      && Bytes(paths, metadata, maxFileSize) == SumSizes(calls)
  {
    if paths != [] {
      var front := paths[..|paths| - 1];
      BatchPartition(front, metadata, maxFileSize);
      var fs := Fates(paths, metadata, maxFileSize);
      assert fs[..|fs| - 1] == Fates(front, metadata, maxFileSize);
      var calls := WarmCalls(paths, metadata, maxFileSize);
      var f := FateOf(metadata(paths[|paths| - 1]), maxFileSize);
      if f.Warmed? {
        assert calls[..|calls| - 1] == WarmCalls(front, metadata, maxFileSize);
      } else {
        assert calls == WarmCalls(front, metadata, maxFileSize);
      }
    }
  }

  /** `avg_file_size`: the floor of bytes per processed file, 0 when none was processed. */
  function AvgFileSize(totalBytes: nat, totalFiles: nat): (avg: nat)
    ensures totalFiles == 0 ==> avg == 0
    ensures totalFiles > 0 ==> avg * totalFiles <= totalBytes < (avg + 1) * totalFiles
  {
    if totalFiles > 0 then
      var q := totalBytes / totalFiles;
      assert totalBytes == q * totalFiles + totalBytes % totalFiles;
      q
    else 0
  }

  // ---------------------------------------------------------------------
  // The counters
  // ---------------------------------------------------------------------

  /** The two shared `AtomicU64` counters of a run. */
  class Counters {
    var totalBytesWarmed: nat
    var processedFiles: nat

    predicate Valid()
      reads this
    {
      IsU64(totalBytesWarmed) && IsU64(processedFiles)
    }

    constructor ()
      ensures Valid() && totalBytesWarmed == 0 && processedFiles == 0
    {
      totalBytesWarmed := 0;
      processedFiles := 0;
    }

    /**
      The body of the per-path loop: returns the size passed to `warm_file`,
      if it is called.  Its result is only logged, so nothing here depends on it.
    */
    method ProcessFile(path: Path, metadata: Option<nat>, maxFileSize: nat) returns (warmed: Option<nat>)
      requires Valid()
      modifies this
      ensures Valid()
      ensures processedFiles == WrapAdd(old(processedFiles), 1)
      ensures totalBytesWarmed == WrapAdd(old(totalBytesWarmed), AddedBytes(FateOf(metadata, maxFileSize)))
      ensures warmed.Some? <==> FateOf(metadata, maxFileSize).Warmed?
      ensures warmed.Some? ==> warmed.value == FateOf(metadata, maxFileSize).size
    {
      if metadata.None? {
        processedFiles := WrapAdd(processedFiles, 1);
        return None;
      }
      var fileSize := metadata.value;
      if maxFileSize > 0 && fileSize > maxFileSize {
        processedFiles := WrapAdd(processedFiles, 1);
        return None;
      }
      totalBytesWarmed := WrapAdd(totalBytesWarmed, fileSize);
      processedFiles := WrapAdd(processedFiles, 1);
      warmed := Some(fileSize);
    }

    /** `for path in file_batch`: one batch, path by path. */
    method ProcessBatch(batch: seq<Path>, metadata: Path -> Option<nat>, maxFileSize: nat)
      returns (calls: seq<(Path, nat)>)
      requires Valid()
      modifies this
      ensures Valid()
      ensures processedFiles == (old(processedFiles) + |batch|) % U64_MODULUS
      ensures totalBytesWarmed == (old(totalBytesWarmed) + Bytes(batch, metadata, maxFileSize)) % U64_MODULUS
      ensures calls == WarmCalls(batch, metadata, maxFileSize)
    {
      calls := [];
      var i := 0;
      while i < |batch|
        invariant 0 <= i <= |batch| && Valid()
        invariant processedFiles == (old(processedFiles) + i) % U64_MODULUS
        invariant totalBytesWarmed == (old(totalBytesWarmed) + Bytes(batch[..i], metadata, maxFileSize)) % U64_MODULUS
        invariant calls == WarmCalls(batch[..i], metadata, maxFileSize)
      {
        calls := ProcessNext(batch, i, metadata, maxFileSize, old(processedFiles), old(totalBytesWarmed), calls);
        i := i + 1;
      }
      assert batch[..i] == batch;
    }

    /** One path of the batch loop, from the loop's state before it to the state after it. */
    method ProcessNext(batch: seq<Path>, i: nat, metadata: Path -> Option<nat>, maxFileSize: nat,
                       ghost files: nat, ghost bytes: nat, calls0: seq<(Path, nat)>)
      returns (calls: seq<(Path, nat)>)
      requires Valid() && i < |batch|
      requires processedFiles == (files + i) % U64_MODULUS
      requires totalBytesWarmed == (bytes + Bytes(batch[..i], metadata, maxFileSize)) % U64_MODULUS
      requires calls0 == WarmCalls(batch[..i], metadata, maxFileSize)
      modifies this
      ensures Valid()
      ensures processedFiles == (files + (i + 1)) % U64_MODULUS
      ensures totalBytesWarmed == (bytes + Bytes(batch[..i + 1], metadata, maxFileSize)) % U64_MODULUS
      ensures calls == WarmCalls(batch[..i + 1], metadata, maxFileSize)
    {
      var path := batch[i];
      ghost var prefix := Bytes(batch[..i], metadata, maxFileSize);
      ghost var added := AddedBytes(FateOf(metadata(path), maxFileSize));
      ghost var bytes0, files0 := totalBytesWarmed, processedFiles;
      var warmed := ProcessFile(path, metadata(path), maxFileSize);
      calls := calls0;
      if warmed.Some? {
        calls := calls + [(path, warmed.value)];
      }
      assert Bytes(batch[..i + 1], metadata, maxFileSize) == prefix + added
        && calls == WarmCalls(batch[..i + 1], metadata, maxFileSize) by {
        BatchSnoc(batch, i, metadata, maxFileSize);
      }
      WrapStep(files, i, 1, files0);
      WrapStep(bytes, prefix, added, bytes0);
    }

    /** One batch of the outer loop, from the loop's state before it to the state after it. */
    method NextBatch(batches: seq<seq<Path>>, b: nat, metadata: Path -> Option<nat>, maxFileSize: nat,
                     ghost files: nat, ghost bytes: nat)
      requires Valid() && b < |batches|
      requires processedFiles == (files + |ReadPlan.Flatten(batches[..b])|) % U64_MODULUS
      requires totalBytesWarmed == (bytes + Bytes(ReadPlan.Flatten(batches[..b]), metadata, maxFileSize)) % U64_MODULUS
      modifies this
      ensures Valid()
      ensures processedFiles == (files + |ReadPlan.Flatten(batches[..b + 1])|) % U64_MODULUS
      ensures totalBytesWarmed == (bytes + Bytes(ReadPlan.Flatten(batches[..b + 1]), metadata, maxFileSize)) % U64_MODULUS
    {
      ghost var done := ReadPlan.Flatten(batches[..b]);
      ghost var bytes0, files0 := totalBytesWarmed, processedFiles;
      var calls := ProcessBatch(batches[b], metadata, maxFileSize);
      assert ReadPlan.Flatten(batches[..b + 1]) == done + batches[b]
        && Bytes(done + batches[b], metadata, maxFileSize) ==
           Bytes(done, metadata, maxFileSize) + Bytes(batches[b], metadata, maxFileSize) by {
        FlattenPrefix(batches, b);
        BytesAppend(done, batches[b], metadata, maxFileSize);
      }
      WrapStep(files, |done|, |batches[b]|, files0);
      WrapStep(bytes, Bytes(done, metadata, maxFileSize), Bytes(batches[b], metadata, maxFileSize), bytes0);
    }

    /** `for_each_concurrent` over the received batches, taken one after the other. */
    method ProcessAll(batches: seq<seq<Path>>, metadata: Path -> Option<nat>, maxFileSize: nat)
      requires Valid()
      modifies this
      ensures Valid()
      ensures processedFiles == (old(processedFiles) + |ReadPlan.Flatten(batches)|) % U64_MODULUS
      ensures totalBytesWarmed ==
        (old(totalBytesWarmed) + Bytes(ReadPlan.Flatten(batches), metadata, maxFileSize)) % U64_MODULUS
    {
      var b := 0;
      while b < |batches|
        invariant 0 <= b <= |batches| && Valid()
        invariant processedFiles == (old(processedFiles) + |ReadPlan.Flatten(batches[..b])|) % U64_MODULUS
        invariant totalBytesWarmed ==
          (old(totalBytesWarmed) + Bytes(ReadPlan.Flatten(batches[..b]), metadata, maxFileSize)) % U64_MODULUS
      {
        NextBatch(batches, b, metadata, maxFileSize, old(processedFiles), old(totalBytesWarmed));
        b := b + 1;
      }
      assert batches[..b] == batches;
    }
  }

  lemma BatchSnoc(batch: seq<Path>, i: nat, metadata: Path -> Option<nat>, maxFileSize: nat)
    requires i < |batch|
    ensures var f := FateOf(metadata(batch[i]), maxFileSize);
      && Bytes(batch[..i + 1], metadata, maxFileSize) == Bytes(batch[..i], metadata, maxFileSize) + AddedBytes(f)
      && WarmCalls(batch[..i + 1], metadata, maxFileSize) ==
         WarmCalls(batch[..i], metadata, maxFileSize) + (if f.Warmed? then [(batch[i], f.size)] else [])
  {
    assert batch[..i + 1][..i] == batch[..i];
  }

  lemma FlattenPrefix(batches: seq<seq<Path>>, b: nat)
    requires b < |batches|
    ensures ReadPlan.Flatten(batches[..b + 1]) == ReadPlan.Flatten(batches[..b]) + batches[b]
  {
    assert batches[..b + 1] == batches[..b] + [batches[b]];
    ReadPlan.FlattenAppend(batches[..b], [batches[b]]);
    assert [batches[b]][1..] == [];
  }

  lemma {:induction false} BytesAppend(a: seq<Path>, b: seq<Path>, metadata: Path -> Option<nat>, maxFileSize: nat)
    ensures Bytes(a + b, metadata, maxFileSize) == Bytes(a, metadata, maxFileSize) + Bytes(b, metadata, maxFileSize)
    decreases |b|
  {
    if b == [] {
      assert a + b == a;
    } else {
      var front := b[..|b| - 1];
      BytesAppend(a, front, metadata, maxFileSize);
      assert (a + b)[..|a + b| - 1] == a + front;
      assert (a + b)[|a + b| - 1] == b[|b| - 1];
    }
  }

  /**
    A whole run.  The receiving stream runs until the channel closes, so no
    send is refused: every discovered file is processed exactly once, and
    `processed_files` ends at `file_count` and `total_bytes_warmed` at the
    bytes of every discovered file that was warmed (both modulo 2^64).
  */
  method Run(walks: seq<seq<Discovery.Entry>>, batchSize: nat, metadata: Path -> Option<nat>, maxFileSize: nat)
    returns (fileCount: nat, processed: nat, totalBytes: nat)
    ensures fileCount == |Discovery.Files(walks)|
    ensures processed == fileCount % U64_MODULUS
    ensures totalBytes == Bytes(Discovery.Files(walks), metadata, maxFileSize) % U64_MODULUS
  {
    var accepted := k => true;
    var r := Discovery.DiscoverFiles(walks, batchSize, accepted);
    assert ReadPlan.Flatten(r.delivered) == Discovery.Files(walks) && r.fileCount == |Discovery.Files(walks)| by {
      Discovery.DiscoverShape(walks, batchSize, accepted);
    }
    var counters := new Counters();
    counters.ProcessAll(r.delivered, metadata, maxFileSize);
    fileCount, processed, totalBytes := r.fileCount, counters.processedFiles, counters.totalBytesWarmed;
  }
}

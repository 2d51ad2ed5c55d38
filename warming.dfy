/**
  Types shared by the Rust warming backends (rust-cache-warmer/src/warming):
  `WarmingOptions`, `WarmingResult`, the build configuration the `cfg!`
  tests look at, and the abstract view of an open file that every read loop
  works on.
*/
module Warming {
  import opened CInt
  import opened Resources

  /** The `std::io::ErrorKind`s the backends create; `Os` is any error passed up from the system. */
  datatype IoError = Unsupported | OutOfMemory | Other | Os(code: int)

  /** `WarmingOptions`. */
  datatype WarmingOptions = WarmingOptions(useIoUring: bool, useLibaio: bool, useDirectIo: bool,
                                           sparseLargeFiles: nat)

  /** `WarmingResult`, without its `duration`; `tag` is its `method` string. */
  datatype WarmingResult = WarmingResult(tag: string, success: bool)

  /** `Result<WarmingResult, std::io::Error>`. */
  datatype Outcome = Ok(result: WarmingResult) | Err(error: IoError)

  /** The target OS and the cargo features the crate was built with. */
  datatype Os = Linux | MacOs | OtherOs
  datatype Build = Build(os: Os, ioUringFeature: bool, libaioFeature: bool)

  /** `cfg(all(target_os = "linux", feature = "io_uring"))` */
  predicate UringCompiled(b: Build) { b.os == Linux && b.ioUringFeature }

  /** `cfg(all(target_os = "linux", feature = "libaio"))` */
  predicate LibaioCompiled(b: Build) { b.os == Linux && b.libaioFeature }

  /** Sparse mode: `sparse_threshold > 0 && file_size > sparse_threshold`. */
  predicate Sparse(fileSize: nat, threshold: nat) { threshold > 0 && fileSize > threshold }

  const ALIGNMENT: nat := 4096
  const CHUNK_SIZE: nat := 1048576
  const SAMPLE_INTERVAL: nat := 65536
  const PAGE_SIZE: nat := 4096
  const MANUAL_BUFFER: nat := 8192

  datatype Advice = WillNeed | DontNeed | Free

  /** A system call a backend makes around its reads: opening, hints, mappings. */
  datatype Call =
    | Open(direct: bool)
    | Fadvise(advice: Advice, len: nat)
    | Mmap(len: nat)
    | Madvise(advice: Advice, len: nat)
    | Munmap(len: nat)

  /** A positioned access to an open file: a seek, or a read of `len` bytes at `pos`. */
  datatype Access = Seek(pos: nat) | Read(pos: nat, len: nat)

  /**
    An open file as the read loops see it: `length` bytes of content (which
    may differ from the size the caller was told), whether a seek to a
    position succeeds, whether a read of `len` bytes at `pos` succeeds, and
    how many bytes a successful read hands back (any count from 1 up to
    what is left is possible; `chunk` picks one).
  */
  datatype ByteSource = ByteSource(length: nat, seekOk: nat -> bool, readOk: (nat, nat) -> bool,
                                   chunk: (nat, nat) -> nat)

  datatype ReadOutcome = Got(n: nat) | Failed

  /** A read of `len` bytes at `pos`: an error, 0 bytes at the end of the file, or 1.. bytes before it. */
  function ReadAt(src: ByteSource, pos: nat, len: nat): (r: ReadOutcome)
    ensures r.Failed? <==> !src.readOk(pos, len)
    ensures r.Got? ==> r.n <= len
    ensures r.Got? && pos < src.length ==> pos + r.n <= src.length
    ensures r.Got? ==> (r.n > 0 <==> pos < src.length && len > 0)
    ensures r.Got? && pos >= src.length ==> r.n == 0
  {
    if !src.readOk(pos, len) then Failed
    else
      var avail := if pos >= src.length then 0 else Min(len, src.length - pos);
      var c := src.chunk(pos, len);
      Got(if 1 <= c <= avail then c else avail)
  }

  datatype OpenOutcome = Opened(src: ByteSource) | OpenFailed(error: IoError)

  /**
    What a backend did: its result, the calls it made around the reads, the
    seeks and reads it made (in order), and its memory events.
  */
  datatype Attempt = Attempt(outcome: Outcome, calls: seq<Call>, accesses: seq<Access>, events: seq<Event>)

  /** One aligned buffer, allocated and freed once. */
  const ONE_BUFFER: seq<Event> := [Acquire(Buffer(0)), Release(Buffer(0))]

  lemma OneBufferBalanced()
    ensures Balanced(ONE_BUFFER)
  {
    ReplayAppend([], Acquire(Buffer(0)));
    assert [Acquire(Buffer(0))] == [] + [Acquire(Buffer(0))];
    ReplayAppend([Acquire(Buffer(0))], Release(Buffer(0)));
    assert ONE_BUFFER == [Acquire(Buffer(0))] + [Release(Buffer(0))];
  }
}

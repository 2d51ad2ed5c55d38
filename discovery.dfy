/**
  File discovery in rust-cache-warmer/src/main.rs: a spawned Tokio future walks
  each directory in turn, pushes every regular file's path onto the current
  batch, sends the batch down the channel once it holds `batch_size` paths,
  and after the walk sends what is left if anything is.  A refused send
  mid-walk ends the walk at once.  The walker's output is an input (one
  sequence of entries per directory) and so is whether the k-th send is
  accepted.
*/
module Discovery {
  import opened CInt
  import ReadPlan

  type Path = string

  /** One item of the walker: a regular file, any other entry, or a walk error. */
  datatype Entry = File(path: Path) | NotFile(path: Path) | WalkError

  /** The paths a walker pushes: those of its regular files, in walk order. */
  function FileEntries(walker: seq<Entry>): seq<Path>
  {
    if walker == [] then []
    else
      var last := walker[|walker| - 1];
      FileEntries(walker[..|walker| - 1]) + (if last.File? then [last.path] else [])
  }

  /** The paths pushed over all directories, in order. */
  function Files(walks: seq<seq<Entry>>): seq<Path>
  {
    if walks == [] then [] else Files(walks[..|walks| - 1]) + FileEntries(walks[|walks| - 1])
  }

  /**
    The size at which a batch is sent: `batch_size`, except that a
    `batch_size` of 0 sends every path on its own (`len() >= 0` always holds).
  */
  function BatchLimit(batchSize: nat): (q: nat)
    ensures q > 0 && (batchSize > 0 ==> q == batchSize)
  {
    if batchSize == 0 then 1 else batchSize
  }

  /** The first of sends `0..n` that is refused, or `n` if none is. */
  function FirstRefusal(sendOk: nat -> bool, n: nat): (f: nat)
    ensures f <= n
    ensures forall k :: 0 <= k < f ==> sendOk(k)
    ensures f < n ==> !sendOk(f)
  {
    if n == 0 then 0
    else
      var g := FirstRefusal(sendOk, n - 1);
      if g < n - 1 then g else if sendOk(n - 1) then n else n - 1
  }

  /** What the discovery future delivers and the `file_count` it returns. */
  datatype Result = Result(delivered: seq<seq<Path>>, fileCount: nat)

  /**
    The reference: the pushed paths cut into batches of `BatchLimit`, of which
    those before the first refused send arrive.  A refusal mid-walk stops the
    count at the paths pushed so far; a refused final send does not.
  */
  function Discover(walks: seq<seq<Entry>>, batchSize: nat, sendOk: nat -> bool): Result
  {
    var files := Files(walks);
    var q := BatchLimit(batchSize);
    var batches := ReadPlan.Chunks(files, q);
    var f := FirstRefusal(sendOk, |batches|);
    Result(batches[..f], if f < |batches| then Min(|files|, (f + 1) * q) else |files|)
  }

  // ---------------------------------------------------------------------
  // Properties of the reference
  // ---------------------------------------------------------------------

  /**
    What arrives is, in order, a prefix of the pushed paths; every delivered
    batch holds 1 to `batch_size` paths and all but the last of the whole run
    exactly `batch_size`; when no send is refused every pushed path arrives,
    once, and `file_count` is their number.
  */
  lemma DiscoverShape(walks: seq<seq<Entry>>, batchSize: nat, sendOk: nat -> bool)
    ensures var r := Discover(walks, batchSize, sendOk);
      var files := Files(walks);
      var q := BatchLimit(batchSize);
      && ReadPlan.Flatten(r.delivered) <= files
      && (forall k :: 0 <= k < |r.delivered| ==> 1 <= |r.delivered[k]| <= q)
      && (forall k :: 0 <= k < |r.delivered| && ReadPlan.Flatten(r.delivered) != files ==> |r.delivered[k]| == q)
      && |ReadPlan.Flatten(r.delivered)| <= r.fileCount <= |files|
      && ((forall k :: 0 <= k < |ReadPlan.Chunks(files, q)| ==> sendOk(k)) ==>
            ReadPlan.Flatten(r.delivered) == files && r.fileCount == |files|)
  {
    var files := Files(walks);
    var q := BatchLimit(batchSize);
    var cs := ReadPlan.Chunks(files, q);
    var f := FirstRefusal(sendOk, |cs|);
    PrefixBatches(files, q, f);
    if f < |cs| {
      RefusedCount(files, q, f);
    } else {
      ReadPlan.ChunksShape(files, q);
      assert cs[..f] == cs;
    }
  }

  /** Each of the first `f` batches holds 1 to `q` paths. */
  lemma PrefixBatches(files: seq<Path>, q: nat, f: nat)
    requires q > 0 && f <= |ReadPlan.Chunks(files, q)|
    ensures var front := ReadPlan.Chunks(files, q)[..f];
      forall k :: 0 <= k < |front| ==> 1 <= |front[k]| <= q
  {
    ReadPlan.ChunksShape(files, q);
  }

  /** When send `f` is refused, the batches before it are full and the count stops after batch `f`. */
  lemma RefusedCount(files: seq<Path>, q: nat, f: nat)
    requires q > 0 && f < |ReadPlan.Chunks(files, q)|
    ensures var front := ReadPlan.Chunks(files, q)[..f];
      && AllFull(front, q)
      && ReadPlan.Flatten(front) <= files && ReadPlan.Flatten(front) != files
      && |ReadPlan.Flatten(front)| <= Min(|files|, (f + 1) * q) <= |files|
  {
    RefusedPrefix(files, q, f);
    assert (f + 1) * q == f * q + q;
  }

  /** Before a refused send, the delivered batches are full and leave at least one path behind. */
  lemma RefusedPrefix(files: seq<Path>, q: nat, f: nat)
    requires q > 0 && f < |ReadPlan.Chunks(files, q)|
    ensures var cs := ReadPlan.Chunks(files, q);
      && AllFull(cs[..f], q)
      && ReadPlan.Flatten(cs[..f]) <= files
      && |ReadPlan.Flatten(cs[..f])| == f * q < |files|
  {
    var cs := ReadPlan.Chunks(files, q);
    ReadPlan.ChunksShape(files, q);
    var front := cs[..f];
    assert AllFull(front, q);
    FullBatchesLength(front, q);
    assert cs == front + ([cs[f]] + cs[f + 1..]);
    ReadPlan.FlattenAppend(front, [cs[f]] + cs[f + 1..]);
    ReadPlan.FlattenAppend([cs[f]], cs[f + 1..]);
    assert [cs[f]][1..] == [];
    assert ReadPlan.Flatten(cs) == ReadPlan.Flatten(front) + (cs[f] + ReadPlan.Flatten(cs[f + 1..]));
  }

  // ---------------------------------------------------------------------
  // Lemmas about batches
  // ---------------------------------------------------------------------

  /** Every batch holds `q` paths. */
  predicate AllFull(batches: seq<seq<Path>>, q: nat)
  {
    forall k :: 0 <= k < |batches| ==> |batches[k]| == q
  }

  lemma {:induction false} FullBatchesLength(batches: seq<seq<Path>>, q: nat)
    requires AllFull(batches, q)
    ensures |ReadPlan.Flatten(batches)| == |batches| * q
  {
    if batches != [] {
      var tail := batches[1..];
      assert AllFull(tail, q) by {
        forall k | 0 <= k < |tail| ensures |tail[k]| == q {
          assert tail[k] == batches[k + 1];
        }
      }
      FullBatchesLength(tail, q);
      assert |batches| * q == q + |tail| * q;
    }
  }

  lemma FlattenSnoc(batches: seq<seq<Path>>, b: seq<Path>)
    ensures ReadPlan.Flatten(batches + [b]) == ReadPlan.Flatten(batches) + b
  {
    ReadPlan.FlattenAppend(batches, [b]);
    assert [b][1..] == [];
  }

  /** Full batches in front are exactly the first chunks. */
  lemma {:induction false} ChunksOfFull(full: seq<seq<Path>>, rest: seq<Path>, q: nat)
    requires q > 0 && AllFull(full, q)
    ensures ReadPlan.Chunks(ReadPlan.Flatten(full) + rest, q) == full + ReadPlan.Chunks(rest, q)
  {
    if full == [] {
      assert ReadPlan.Flatten(full) + rest == rest;
    } else {
      var head, others := full[0], full[1..];
      assert AllFull(others, q) by {
        forall k | 0 <= k < |others| ensures |others[k]| == q {
          assert others[k] == full[k + 1];
        }
      }
      var tail := ReadPlan.Flatten(others) + rest;
      ChunksOfFull(others, rest, q);
      assert ReadPlan.Flatten(full) == head + ReadPlan.Flatten(others);
      ReadPlan.AppendAssoc(head, ReadPlan.Flatten(others), rest);
      assert |head| == q && |head + tail| >= q;
      ReadPlan.ChunksStep(head + tail, head, tail, q);
      assert full == [head] + others;
    }
  }

  /** A non-empty remainder of at most `q` paths is one last batch. */
  lemma ChunksSmall(rest: seq<Path>, q: nat)
    requires 0 < |rest| <= q
    ensures ReadPlan.Chunks(rest, q) == [rest]
  {
    assert rest[..|rest|] == rest;
    assert rest[|rest|..] == [];
  }

  lemma FileEntriesSnoc(walker: seq<Entry>, j: nat)
    requires j < |walker|
    ensures FileEntries(walker[..j + 1]) ==
      FileEntries(walker[..j]) + (if walker[j].File? then [walker[j].path] else [])
  {
    assert walker[..j + 1][..j] == walker[..j];
  }

  lemma FilesSnoc(walks: seq<seq<Entry>>, w: nat)
    requires w < |walks|
    ensures Files(walks[..w + 1]) == Files(walks[..w]) + FileEntries(walks[w])
  {
    assert walks[..w + 1][..w] == walks[..w];
  }

  lemma {:induction false} FilesPrefix(walks: seq<seq<Entry>>, w: nat)
    requires w <= |walks|
    ensures Files(walks[..w]) <= Files(walks)
    decreases |walks| - w
  {
    if w == |walks| {
      assert walks[..w] == walks;
    } else {
      FilesSnoc(walks, w);
      FilesPrefix(walks, w + 1);
    }
  }

  // ---------------------------------------------------------------------
  // The discovery future
  // ---------------------------------------------------------------------

  /** The walker's state between pushes: sent batches are full and were accepted, the open batch is not full. */
  predicate Pending(sent: seq<seq<Path>>, current: seq<Path>, q: nat, sendOk: nat -> bool)
  {
    AllFull(sent, q) && |current| < q && forall k :: 0 <= k < |sent| ==> sendOk(k)
  }

  /** The paths pushed so far. */
  function Pushed(sent: seq<seq<Path>>, current: seq<Path>): seq<Path>
  {
    ReadPlan.Flatten(sent) + current
  }

  /** One walker entry: push a regular file, send the batch once it is full. */
  lemma PushStep(sent: seq<seq<Path>>, current: seq<Path>, path: Path, batchSize: nat, sendOk: nat -> bool)
    requires Pending(sent, current, BatchLimit(batchSize), sendOk)
    ensures var grown := current + [path];
      && Pushed(sent, grown) == Pushed(sent, current) + [path]
      && (|grown| < batchSize ==> Pending(sent, grown, BatchLimit(batchSize), sendOk))
      && (|grown| >= batchSize ==> |grown| == BatchLimit(batchSize))
      && (|grown| >= batchSize && sendOk(|sent|) ==>
            Pending(sent + [grown], [], BatchLimit(batchSize), sendOk) &&
            Pushed(sent + [grown], []) == Pushed(sent, grown))
  {
    var grown := current + [path];
    FlattenSnoc(sent, grown);
  }

  /** The inner `for result in walker` loop, from a state `Pending` describes. */
  method WalkEntries(walker: seq<Entry>, batchSize: nat, sendOk: nat -> bool,
                     sent0: seq<seq<Path>>, current0: seq<Path>, count0: nat)
    returns (sent: seq<seq<Path>>, current: seq<Path>, count: nat, stopped: bool)
    requires Pending(sent0, current0, BatchLimit(batchSize), sendOk) && count0 == |Pushed(sent0, current0)|
    ensures count == |Pushed(sent, current)|
    ensures !stopped ==>
      Pending(sent, current, BatchLimit(batchSize), sendOk) &&
      Pushed(sent, current) == Pushed(sent0, current0) + FileEntries(walker)
    ensures stopped ==>
      AllFull(sent, BatchLimit(batchSize)) && |current| == BatchLimit(batchSize) &&
      (forall k :: 0 <= k < |sent| ==> sendOk(k)) && !sendOk(|sent|) &&
      Pushed(sent, current) <= Pushed(sent0, current0) + FileEntries(walker)
  {
    sent, current, count, stopped := sent0, current0, count0, false;
    var j := 0;
    while j < |walker|
      invariant 0 <= j <= |walker|
      invariant Pending(sent, current, BatchLimit(batchSize), sendOk) && count == |Pushed(sent, current)|
      invariant Pushed(sent, current) == Pushed(sent0, current0) + FileEntries(walker[..j])
    {
      FileEntriesSnoc(walker, j);
      var entry := walker[j];
      if entry.File? {
        var path := entry.path;
        PushStep(sent, current, path, batchSize, sendOk);
        ReadPlan.AppendAssoc(Pushed(sent0, current0), FileEntries(walker[..j]), [path]);
        current := current + [path];
        count := count + 1;
        if |current| >= batchSize {
          if !sendOk(|sent|) {
            FilesPrefixOfWalker(walker, j + 1);
            PrefixAppend(Pushed(sent0, current0), FileEntries(walker[..j + 1]), FileEntries(walker));
            stopped := true;
            return;
          }
          sent := sent + [current];
          current := [];
        }
      } else {
        assert FileEntries(walker[..j + 1]) == FileEntries(walker[..j]) + [];
      }
      j := j + 1;
    }
    assert walker[..j] == walker;
  }

  lemma {:induction false} FilesPrefixOfWalker(walker: seq<Entry>, j: nat)
    requires j <= |walker|
    ensures FileEntries(walker[..j]) <= FileEntries(walker)
    decreases |walker| - j
  {
    if j == |walker| {
      assert walker[..j] == walker;
    } else {
      FileEntriesSnoc(walker, j);
      FilesPrefixOfWalker(walker, j + 1);
    }
  }

  lemma PrefixAppend(a: seq<Path>, b: seq<Path>, c: seq<Path>)
    requires b <= c
    ensures a + b <= a + c
  {
    assert (a + c)[..|a + b|] == a + b;
  }

  lemma FirstRefusalAt(sendOk: nat -> bool, n: nat, k: nat)
    requires k < n && (forall j :: 0 <= j < k ==> sendOk(j)) && !sendOk(k)
    ensures FirstRefusal(sendOk, n) == k
  {
  }

  lemma FirstRefusalNone(sendOk: nat -> bool, n: nat)
    requires forall j :: 0 <= j < n ==> sendOk(j)
    ensures FirstRefusal(sendOk, n) == n
  {
  }

  /** A count short of a full last batch is below the cap `(k + 1) * q`. */
  lemma PartialCount(n: nat, k: nat, c: nat, q: nat)
    requires n == k * q + c && c < q
    ensures Min(n, (k + 1) * q) == n
  {
    assert (k + 1) * q == k * q + q;
  }

  /** A refused send mid-walk: what was accepted and the count so far are the reference's. */
  lemma StoppedMatches(walks: seq<seq<Entry>>, batchSize: nat, sendOk: nat -> bool,
                       sent: seq<seq<Path>>, current: seq<Path>)
    requires AllFull(sent, BatchLimit(batchSize)) && |current| == BatchLimit(batchSize)
    requires (forall k :: 0 <= k < |sent| ==> sendOk(k)) && !sendOk(|sent|)
    requires Pushed(sent, current) <= Files(walks)
    ensures Discover(walks, batchSize, sendOk) == Result(sent, |Pushed(sent, current)|)
  {
    var q := BatchLimit(batchSize);
    var files := Files(walks);
    var cs := ReadPlan.Chunks(files, q);
    FullPrefix(files, q, sent, current);
    FirstRefusalAt(sendOk, |cs|, |sent|);
  }

  /** Full batches that are a prefix of `files` are the first chunks of `files`, with one more after them. */
  lemma FullPrefix(files: seq<Path>, q: nat, sent: seq<seq<Path>>, current: seq<Path>)
    requires q > 0 && AllFull(sent, q) && |current| == q
    requires Pushed(sent, current) <= files
    ensures var cs := ReadPlan.Chunks(files, q);
      && |sent| < |cs| && cs[..|sent|] == sent
      && Min(|files|, (|sent| + 1) * q) == |Pushed(sent, current)|
  {
    var full := sent + [current];
    var pushed := ReadPlan.Flatten(full);
    assert pushed == Pushed(sent, current) by {
      FlattenSnoc(sent, current);
    }
    var rest := files[|pushed|..];
    var cs := ReadPlan.Chunks(files, q);
    var after := ReadPlan.Chunks(rest, q);
    assert cs == full + after by {
      assert files == pushed + rest;
      assert AllFull(full, q);
      ChunksOfFull(full, rest, q);
    }
    assert cs[..|sent|] == sent by {
      PrefixOfAppend(sent, [current] + after);
      assert full + after == sent + ([current] + after);
    }
    assert |pushed| == (|sent| + 1) * q by {
      assert AllFull(full, q);
      FullBatchesLength(full, q);
    }
  }

  lemma PrefixOfAppend(a: seq<seq<Path>>, b: seq<seq<Path>>)
    ensures (a + b)[..|a|] == a
  {
  }

  /** The walk completed and every send was accepted. */
  lemma FinishedMatches(walks: seq<seq<Entry>>, batchSize: nat, sendOk: nat -> bool,
                        sent: seq<seq<Path>>, current: seq<Path>)
    requires Pending(sent, current, BatchLimit(batchSize), sendOk) && Pushed(sent, current) == Files(walks)
    requires current != [] ==> sendOk(|sent|)
    ensures Discover(walks, batchSize, sendOk) ==
      Result(sent + (if current == [] then [] else [current]), |Files(walks)|)
  {
    var q := BatchLimit(batchSize);
    var cs := ReadPlan.Chunks(Files(walks), q);
    ChunksOfFull(sent, current, q);
    if current == [] {
      assert cs == sent;
    } else {
      ChunksSmall(current, q);
      assert cs == sent + [current];
    }
    FirstRefusalNone(sendOk, |cs|);
    assert cs[..|cs|] == cs;
  }

  /** The walk completed but the final, partial batch was refused. */
  lemma FinalRefused(walks: seq<seq<Entry>>, batchSize: nat, sendOk: nat -> bool,
                     sent: seq<seq<Path>>, current: seq<Path>)
    requires Pending(sent, current, BatchLimit(batchSize), sendOk) && Pushed(sent, current) == Files(walks)
    requires current != [] && !sendOk(|sent|)
    ensures Discover(walks, batchSize, sendOk) == Result(sent, |Files(walks)|)
  {
    var q := BatchLimit(batchSize);
    var files := Files(walks);
    var cs := ReadPlan.Chunks(files, q);
    assert cs == sent + [current] by {
      ChunksOfFull(sent, current, q);
      ChunksSmall(current, q);
    }
    assert cs[..|sent|] == sent by {
      PrefixOfAppend(sent, [current]);
    }
    assert Min(|files|, (|sent| + 1) * q) == |files| by {
      FullBatchesLength(sent, q);
      PartialCount(|files|, |sent|, |current|, q);
    }
    FirstRefusalAt(sendOk, |cs|, |sent|);
  }

  /** The spawned discovery future, up to the `file_count` it returns. */
  method DiscoverFiles(walks: seq<seq<Entry>>, batchSize: nat, sendOk: nat -> bool) returns (r: Result)
    ensures r == Discover(walks, batchSize, sendOk)
  {
    var sent: seq<seq<Path>> := [];
    var current: seq<Path> := [];
    var count := 0;
    var w := 0;
    assert ReadPlan.Flatten(sent) + current == [];
    while w < |walks|
      invariant 0 <= w <= |walks|
      invariant Pending(sent, current, BatchLimit(batchSize), sendOk) && count == |Pushed(sent, current)|
      invariant Pushed(sent, current) == Files(walks[..w])
    {
      FilesSnoc(walks, w);
      var stopped;
      sent, current, count, stopped := WalkEntries(walks[w], batchSize, sendOk, sent, current, count);
      if stopped {
        FilesPrefix(walks, w + 1);
        StoppedMatches(walks, batchSize, sendOk, sent, current);
        return Result(sent, count);
      }
      w := w + 1;
    }
    assert walks[..w] == walks;
    if current != [] {
      if !sendOk(|sent|) {
        FinalRefused(walks, batchSize, sendOk, sent, current);
        return Result(sent, count);
      }
      FinishedMatches(walks, batchSize, sendOk, sent, current);
      sent := sent + [current];
    } else {
      FinishedMatches(walks, batchSize, sendOk, sent, current);
    }
    r := Result(sent, count);
  }
}

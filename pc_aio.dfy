/**
  `io_warm_files` of page-cache-warmer (page-cache-warmer/io_operations.c),
  the libaio reader, as written: a table of `queue_depth` descriptor slots
  with their offsets, the `iocbsp` pointer array, `file_index` and
  `inflight`.  Three things in it do not do what its comments say, and the
  model keeps them: a successful `open` does not advance `file_index`, the
  new control block is stored at `iocbsp[inflight]` while `io_submit` is
  handed the first `submitted` entries, and a completion compares the
  offset with the size of `files[file_index]` rather than of the slot's own
  file.  What is proved is therefore about the slot table only.
*/
module PageCacheAio {
  import opened Wrappers
  import opened Resources
  import opened AlignedBuffers
  import opened PageCacheSlots
  import DiskIo
  import PageCacheFiles

  type FileInfo = PageCacheFiles.FileInfo

  /**
    The reader's state: `fds[]`, `file_offsets[]`, the slots written into
    `iocbsp[]` (by position), `file_index`, `inflight`, this round's
    `submitted`, and, of the model, the file index each `open` was given.
  */
  datatype AioTable = AioTable(fds: seq<int>, offsets: seq<int>, iocbsp: map<int, nat>, fileIndex: nat,
                               inflight: int, submitted: nat, openLog: seq<nat>)

  /** One `io_event`: which control block (`pick`, taken modulo the table size) and `res`. */
  datatype AioEvent = AioEvent(pick: nat, res: int)

  /**
    The kernel's answers: `openFd(k)` is the k-th `open` (`None` for -1),
    `submitResult(r)` what `io_submit` returns in round r, `events(r)` what
    `io_getevents` fills in (`None` when it fails), `resubmitOk(r, i)` the
    single `io_submit` after event i, and `beyond` the size read when
    `file_index` has gone past the end of the list.
  */
  datatype AioEnv = AioEnv(setupOk: bool, memalignOk: seq<bool>, openFd: nat -> Option<nat>,
                           submitResult: nat -> int, events: nat -> Option<seq<AioEvent>>,
                           resubmitOk: (nat, nat) -> bool, beyond: int)

  /** The table after `fds[i] = -1` for every slot. */
  function InitialTable(queueDepth: nat): AioTable
  {
    AioTable(seq(queueDepth, i => FREE), seq(queueDepth, i => 0), map[], 0, 0, 0, [])
  }

  /** What every step keeps: slot arrays of `queue_depth` entries and at most `queue_depth` in flight. */
  predicate TableOk(t: AioTable, queueDepth: int)
  {
    |t.fds| == queueDepth && |t.offsets| == queueDepth && t.inflight <= queueDepth
  }

  /** `files->files[file_index].size`, which reads past the list once `file_index` has run beyond it. */
  function SizeAt(files: seq<FileInfo>, i: nat, beyond: int): int
  {
    if i < |files| then files[i].size else beyond
  }

  // ---------------------------------------------------------------------
  // Dispatch
  // ---------------------------------------------------------------------

  /** A failed `open` of `files[file_index]` into slot q: -1 is stored there and `file_index` moves on. */
  function Skipped(t: AioTable, q: nat): AioTable
    requires q < |t.fds|
  {
    t.(fds := t.fds[q := FREE], fileIndex := t.fileIndex + 1, openLog := t.openLog + [t.fileIndex])
  }

  /**
    A successful `open` into slot q: the descriptor and offset 0 are stored,
    the slot goes to `iocbsp[inflight]`, and one more is submitted and in
    flight; `file_index` stays.
  */
  function Opened(t: AioTable, q: nat, fd: int): AioTable
    requires q < |t.fds| == |t.offsets|
  {
    t.(fds := t.fds[q := fd], offsets := t.offsets[q := 0], iocbsp := t.iocbsp[t.inflight := q],
       submitted := t.submitted + 1, inflight := t.inflight + 1, openLog := t.openLog + [t.fileIndex])
  }

  /** The inner `while`: the lowest free slot gets `open(files[file_index])`, until the table or the list runs out. */
  function Dispatch(t: AioTable, files: seq<FileInfo>, queueDepth: int, openFd: nat -> Option<nat>): (d: AioTable)
    requires |t.offsets| == |t.fds|
    ensures |d.offsets| == |d.fds| == |t.fds|
    decreases (|files| - t.fileIndex) + (queueDepth - t.inflight)
  {
    if !(t.inflight < queueDepth && t.fileIndex < |files|) then t
    else
      var q := FirstFree(t.fds);
      if q == -1 then t
      else
        match openFd(|t.openLog|)
        case None => Dispatch(Skipped(t, q), files, queueDepth, openFd)
        case Some(fd) => Dispatch(Opened(t, q, fd), files, queueDepth, openFd)
  }

  /**
    One pass of the dispatch loop uses the lowest free slot; a failed `open`
    leaves the slot free.
  */
  lemma DispatchStep(t: AioTable, files: seq<FileInfo>, queueDepth: int, openFd: nat -> Option<nat>)
    requires FirstFree(t.fds) != -1 && t.inflight < queueDepth && t.fileIndex < |files| && |t.offsets| == |t.fds|
    ensures var q := FirstFree(t.fds);
      && 0 <= q < |t.fds| && t.fds[q] == FREE && (forall i :: 0 <= i < q ==> t.fds[i] != FREE)
      && Skipped(t, q).fds == t.fds
      && (openFd(|t.openLog|).None? ==>
            Dispatch(t, files, queueDepth, openFd) == Dispatch(Skipped(t, q), files, queueDepth, openFd))
      && (openFd(|t.openLog|).Some? ==>
            Dispatch(t, files, queueDepth, openFd) ==
            Dispatch(Opened(t, q, openFd(|t.openLog|).value), files, queueDepth, openFd))
  {
    var q := FirstFree(t.fds);
    assert t.fds[q := FREE] == t.fds;
  }

  /**
    The dispatch loop keeps the table shape, never lets more than
    `queue_depth` be in flight, only adds to `inflight`, and never lowers
    `file_index`.
  */
  lemma {:induction false} DispatchKeeps(t: AioTable, files: seq<FileInfo>, queueDepth: int,
                                         openFd: nat -> Option<nat>)
    requires TableOk(t, queueDepth)
    ensures var d := Dispatch(t, files, queueDepth, openFd);
      && TableOk(d, queueDepth)
      && t.inflight <= d.inflight
      && t.fileIndex <= d.fileIndex
    decreases (|files| - t.fileIndex) + (queueDepth - t.inflight)
  {
    if t.inflight < queueDepth && t.fileIndex < |files| && FirstFree(t.fds) != -1 {
      DispatchStep(t, files, queueDepth, openFd);
      var q := FirstFree(t.fds);
      match openFd(|t.openLog|)
      case None => DispatchKeeps(Skipped(t, q), files, queueDepth, openFd);
      case Some(fd) => DispatchKeeps(Opened(t, q, fd), files, queueDepth, openFd);
    }
  }

  /** The `n` calls to `open` from the `from`-th on all succeed. */
  ghost predicate OpensSucceed(openFd: nat -> Option<nat>, from: nat, n: int)
  {
    forall k: nat :: from <= k < from + n ==> openFd(k).Some?
  }

  /** `n` copies of `x`. */
  function Repeat(x: nat, n: int): (s: seq<nat>)
    ensures |s| == if n > 0 then n else 0
    decreases n
  {
    if n <= 0 then [] else [x] + Repeat(x, n - 1)
  }

  /**
    Because a successful `open` does not advance `file_index`, a round whose
    opens all succeed opens the same file into every free slot until
    `queue_depth` are in flight.
  */
  lemma {:induction false} ReopensSameFile(t: AioTable, files: seq<FileInfo>, queueDepth: int,
                                           openFd: nat -> Option<nat>)
    requires TableOk(t, queueDepth) && t.fileIndex < |files| && 0 <= t.inflight
    requires |Occupied(t.fds)| == t.inflight
    requires OpensSucceed(openFd, |t.openLog|, queueDepth - t.inflight)
    ensures var d := Dispatch(t, files, queueDepth, openFd);
      && d.fileIndex == t.fileIndex && d.inflight == queueDepth
      && d.openLog == t.openLog + Repeat(t.fileIndex, queueDepth - t.inflight)
    decreases queueDepth - t.inflight
  {
    if t.inflight < queueDepth {
      var next := OpenStep(t, files, queueDepth, openFd);
      ReopensSameFile(next, files, queueDepth, openFd);
      RepeatAppend(t.openLog, t.fileIndex, queueDepth - t.inflight);
    } else {
      assert t.openLog + [] == t.openLog;
    }
  }

  /** One successful pass of the dispatch loop when the slots in use are exactly those counted in flight. */
  lemma OpenStep(t: AioTable, files: seq<FileInfo>, queueDepth: int, openFd: nat -> Option<nat>)
    returns (next: AioTable)
    requires TableOk(t, queueDepth) && t.fileIndex < |files| && 0 <= t.inflight < queueDepth
    requires |Occupied(t.fds)| == t.inflight && openFd(|t.openLog|).Some?
    ensures TableOk(next, queueDepth) && |Occupied(next.fds)| == next.inflight == t.inflight + 1
    ensures next.fileIndex == t.fileIndex && next.openLog == t.openLog + [t.fileIndex]
    ensures Dispatch(t, files, queueDepth, openFd) == Dispatch(next, files, queueDepth, openFd)
  {
    OccupiedFull(t.fds);
    DispatchStep(t, files, queueDepth, openFd);
    var q := FirstFree(t.fds);
    var fd := openFd(|t.openLog|).value;
    next := Opened(t, q, fd);
    OccupiedUpdate(t.fds, q, fd);
  }

  lemma RepeatAppend(s: seq<nat>, x: nat, n: int)
    requires n > 0
    ensures s + [x] + Repeat(x, n - 1) == s + Repeat(x, n)
  {
  }

  // ---------------------------------------------------------------------
  // Completions
  // ---------------------------------------------------------------------

  /** `close(fds[q]); fds[q] = -1; inflight--; file_index++`. */
  function Close(t: AioTable, q: nat): AioTable
    requires q < |t.fds|
  {
    t.(fds := t.fds[q := FREE], inflight := t.inflight - 1, fileIndex := t.fileIndex + 1)
  }

  /**
    The `for` over the events from event i of round `round`: a positive
    result moves the slot's offset on and, while it is below the size of
    `files[file_index]`, resubmits (a failed resubmit frees the slot without
    advancing `file_index`); otherwise the slot is closed.
  */
  function CompleteEvents(t: AioTable, events: seq<AioEvent>, files: seq<FileInfo>, env: AioEnv, round: nat, i: nat)
    : AioTable
    requires |t.fds| == |t.offsets| > 0
    decreases |events| - i
  {
    if i >= |events| then t
    else
      var q := events[i].pick % |t.fds|;
      var res := events[i].res;
      if res > 0 then
        var offset := t.offsets[q] + res;
        var moved := t.(offsets := t.offsets[q := offset]);
        if offset < SizeAt(files, t.fileIndex, env.beyond) then
          if env.resubmitOk(round, i) then CompleteEvents(moved, events, files, env, round, i + 1)
          else CompleteEvents(moved.(fds := moved.fds[q := FREE], inflight := moved.inflight - 1),
                              events, files, env, round, i + 1)
        else CompleteEvents(Close(moved, q), events, files, env, round, i + 1)
      else CompleteEvents(Close(t, q), events, files, env, round, i + 1)
  }

  /** Completions keep the table shape and only lower `inflight`. */
  lemma {:induction false} CompleteKeeps(t: AioTable, events: seq<AioEvent>, files: seq<FileInfo>, env: AioEnv,
                                         round: nat, i: nat)
    requires TableOk(t, |t.fds|) && |t.fds| > 0
    ensures var c := CompleteEvents(t, events, files, env, round, i);
      && TableOk(c, |t.fds|) && c.inflight <= t.inflight && c.fileIndex >= t.fileIndex
    decreases |events| - i
  {
    if i < |events| {
      var q := events[i].pick % |t.fds|;
      var res := events[i].res;
      if res > 0 {
        var offset := t.offsets[q] + res;
        var moved := t.(offsets := t.offsets[q := offset]);
        if offset < SizeAt(files, t.fileIndex, env.beyond) {
          if env.resubmitOk(round, i) {
            CompleteKeeps(moved, events, files, env, round, i + 1);
          } else {
            CompleteKeeps(moved.(fds := moved.fds[q := FREE], inflight := moved.inflight - 1),
                          events, files, env, round, i + 1);
          }
        } else {
          CompleteKeeps(Close(moved, q), events, files, env, round, i + 1);
        }
      } else {
        CompleteKeeps(Close(t, q), events, files, env, round, i + 1);
      }
    }
  }

  // ---------------------------------------------------------------------
  // The main loop
  // ---------------------------------------------------------------------

  /**
    The outer `while`: dispatch, `io_submit` of the first `submitted`
    entries of `iocbsp` (a short count ends the loop), then, with something
    in flight, `io_getevents` (a failure ends the loop) and the events.
  */
  function AioLoop(t: AioTable, files: seq<FileInfo>, queueDepth: int, env: AioEnv, round: nat, rounds: nat)
    : (AioTable, Stop)
    requires TableOk(t, queueDepth) && queueDepth > 0
    decreases rounds - round
  {
    if !(t.fileIndex < |files| || t.inflight > 0) then (t, Done)
    else if round >= rounds then (t, OutOfRounds)
    else
      DispatchKeeps(t.(submitted := 0), files, queueDepth, env.openFd);
      var d := Dispatch(t.(submitted := 0), files, queueDepth, env.openFd);
      if d.submitted > 0 && env.submitResult(round) < d.submitted then (d, SubmitFailed)
      else if d.inflight > 0 then
        if env.events(round).None? then (d, WaitFailed)
        else
          CompleteKeeps(d, env.events(round).value, files, env, round, 0);
          AioLoop(CompleteEvents(d, env.events(round).value, files, env, round, 0), files, queueDepth, env,
                  round + 1, rounds)
      else AioLoop(d, files, queueDepth, env, round + 1, rounds)
  }

  /**
    Whatever the kernel answers, no more than `queue_depth` reads are ever
    counted in flight; the loop ends `Done` only with `file_index` at or past
    the end of the list and nothing counted in flight.
  */
  lemma {:induction false} AioLoopKeeps(t: AioTable, files: seq<FileInfo>, queueDepth: int, env: AioEnv,
                                        round: nat, rounds: nat)
    requires TableOk(t, queueDepth) && queueDepth > 0
    ensures var (e, stop) := AioLoop(t, files, queueDepth, env, round, rounds);
      && TableOk(e, queueDepth) && e.inflight <= queueDepth
      && (stop == Done ==> e.fileIndex >= |files| && e.inflight <= 0)
    decreases rounds - round
  {
    if (t.fileIndex < |files| || t.inflight > 0) && round < rounds {
      DispatchKeeps(t.(submitted := 0), files, queueDepth, env.openFd);
      var d := Dispatch(t.(submitted := 0), files, queueDepth, env.openFd);
      if !(d.submitted > 0 && env.submitResult(round) < d.submitted) {
        if d.inflight > 0 {
          if env.events(round).Some? {
            CompleteKeeps(d, env.events(round).value, files, env, round, 0);
            AioLoopKeeps(CompleteEvents(d, env.events(round).value, files, env, round, 0), files, queueDepth, env,
                         round + 1, rounds);
          }
        } else {
          AioLoopKeeps(d, files, queueDepth, env, round + 1, rounds);
        }
      }
    }
  }

  /** Every `open` succeeds, with descriptor 3. */
  function AllOpen(k: nat): Option<nat>
  {
    Some(3)
  }

  /**
    With two files and two slots whose opens succeed, the dispatch loop as
    written opens the first file into both slots and leaves `file_index` at
    the first file.
  */
  lemma FirstFileOpenedTwice(files: seq<FileInfo>)
    requires |files| == 2
    ensures var d := Dispatch(InitialTable(2), files, 2, AllOpen);
      d.openLog == [0, 0] && d.fileIndex == 0 && d.inflight == 2
  {
    OccupiedNone0(2);
    ReopensSameFile(InitialTable(2), files, 2, AllOpen);
    assert Repeat(0, 2) == [0, 0];
  }

  /** `fds[]` of a fresh table is all free. */
  lemma OccupiedNone0(queueDepth: nat)
    ensures |Occupied(InitialTable(queueDepth).fds)| == 0
  {
    AllFreeUnoccupied(InitialTable(queueDepth).fds);
  }

  // ---------------------------------------------------------------------
  // The reader itself
  // ---------------------------------------------------------------------

  /** The table whose slot arrays are `fds` and `offsets` and whose other variables are those of `s`. */
  function With(s: AioTable, fds: seq<int>, offsets: seq<int>): (t: AioTable)
    ensures t.fds == fds && t.offsets == offsets
  {
    s.(fds := fds, offsets := offsets)
  }

  /** The inner `while` over `fds[]` and `file_offsets[]`, as `Dispatch` states it. */
  method DispatchAio(fds: array<int>, offsets: array<int>, files: seq<FileInfo>, queueDepth: int,
                     openFd: nat -> Option<nat>, s0: AioTable)
    returns (s: AioTable)
    requires fds != offsets && fds.Length == offsets.Length
    modifies fds, offsets
    ensures With(s, fds[..], offsets[..]) == Dispatch(With(s0, old(fds[..]), old(offsets[..])), files, queueDepth, openFd)
  {
    ghost var target := Dispatch(With(s0, fds[..], offsets[..]), files, queueDepth, openFd);
    s := s0;
    while s.inflight < queueDepth && s.fileIndex < |files|
      invariant Dispatch(With(s, fds[..], offsets[..]), files, queueDepth, openFd) == target
      decreases (|files| - s.fileIndex) + (queueDepth - s.inflight)
    {
      var full;
      s, full := DispatchOneAio(fds, offsets, files, queueDepth, openFd, s);
      if full {
        break;
      }
    }
  }

  /**
    One pass of the inner `while`: `full` when no slot is free (the loop's
    `break`), otherwise the next file is opened into the lowest free slot.
  */
  method DispatchOneAio(fds: array<int>, offsets: array<int>, files: seq<FileInfo>, queueDepth: int,
                        openFd: nat -> Option<nat>, s0: AioTable)
    returns (s: AioTable, full: bool)
    requires fds != offsets && fds.Length == offsets.Length
    requires s0.inflight < queueDepth && s0.fileIndex < |files|
    modifies fds, offsets
    ensures Dispatch(With(s, fds[..], offsets[..]), files, queueDepth, openFd) ==
      Dispatch(With(s0, old(fds[..]), old(offsets[..])), files, queueDepth, openFd)
    ensures full ==> Dispatch(With(s, fds[..], offsets[..]), files, queueDepth, openFd) == With(s, fds[..], offsets[..])
    ensures !full ==> (|files| - s.fileIndex) + (queueDepth - s.inflight) < (|files| - s0.fileIndex) + (queueDepth - s0.inflight)
  {
    s := s0;
    var q := FindFreeSlot(fds);
    if q == -1 {
      return s, true;
    }
    ghost var t := With(s0, fds[..], offsets[..]);
    DispatchStep(t, files, queueDepth, openFd);
    var fd := openFd(|s.openLog|);
    if fd.None? {
      fds[q] := FREE;
      s := s.(fileIndex := s.fileIndex + 1, openLog := s.openLog + [s.fileIndex]);
      assert With(s, fds[..], offsets[..]) == Skipped(t, q);
    } else {
      fds[q] := fd.value;
      offsets[q] := 0;
      s := s.(iocbsp := s.iocbsp[s.inflight := q], submitted := s.submitted + 1, inflight := s.inflight + 1,
              openLog := s.openLog + [s.fileIndex]);
      assert With(s, fds[..], offsets[..]) == Opened(t, q, fd.value);
    }
    full := false;
  }

  /** The `for` over the events of one round, as `CompleteEvents` states it. */
  method CompleteAio(fds: array<int>, offsets: array<int>, events: seq<AioEvent>, files: seq<FileInfo>, env: AioEnv,
                     round: nat, s0: AioTable)
    returns (s: AioTable)
    requires fds != offsets && fds.Length == offsets.Length > 0
    modifies fds, offsets
    ensures With(s, fds[..], offsets[..]) == CompleteEvents(With(s0, old(fds[..]), old(offsets[..])), events, files, env, round, 0)
  {
    ghost var target := CompleteEvents(With(s0, fds[..], offsets[..]), events, files, env, round, 0);
    s := s0;
    for i := 0 to |events|
      invariant CompleteEvents(With(s, fds[..], offsets[..]), events, files, env, round, i) == target
    {
      s := CompleteOneAio(fds, offsets, events, files, env, round, i, s);
    }
  }

  /** One event: the offset moves on, and the read is resubmitted or the slot closed. */
  method CompleteOneAio(fds: array<int>, offsets: array<int>, events: seq<AioEvent>, files: seq<FileInfo>, env: AioEnv,
                        round: nat, i: nat, s0: AioTable)
    returns (s: AioTable)
    requires fds != offsets && fds.Length == offsets.Length > 0 && i < |events|
    modifies fds, offsets
    ensures CompleteEvents(With(s, fds[..], offsets[..]), events, files, env, round, i + 1) ==
      CompleteEvents(With(s0, old(fds[..]), old(offsets[..])), events, files, env, round, i)
  {
    ghost var t := With(s0, fds[..], offsets[..]);
    s := s0;
    var q := events[i].pick % fds.Length;
    var res := events[i].res;
    if res > 0 {
      offsets[q] := offsets[q] + res;
      ghost var moved := t.(offsets := t.offsets[q := offsets[q]]);
      if offsets[q] < SizeAt(files, s.fileIndex, env.beyond) {
        if !env.resubmitOk(round, i) {
          fds[q] := FREE;
          s := s.(inflight := s.inflight - 1);
          assert With(s, fds[..], offsets[..]) == moved.(fds := moved.fds[q := FREE], inflight := moved.inflight - 1);
        } else {
          assert With(s, fds[..], offsets[..]) == moved;
        }
        return;
      }
      fds[q] := FREE;
      s := s.(inflight := s.inflight - 1, fileIndex := s.fileIndex + 1);
      assert With(s, fds[..], offsets[..]) == Close(moved, q);
    } else {
      fds[q] := FREE;
      s := s.(inflight := s.inflight - 1, fileIndex := s.fileIndex + 1);
      assert With(s, fds[..], offsets[..]) == Close(t, q);
    }
  }

  /** The outer `while` over fresh slot arrays, as `AioLoop` states it. */
  method RunRoundsAio(files: seq<FileInfo>, queueDepth: nat, env: AioEnv, rounds: nat) returns (table: AioTable, stop: Stop)
    requires queueDepth > 0
    ensures (table, stop) == AioLoop(InitialTable(queueDepth), files, queueDepth, env, 0, rounds)
  {
    var fds := new int[queueDepth](i => FREE);
    var offsets := new int[queueDepth](i => 0);
    var s := InitialTable(queueDepth);
    assert With(s, fds[..], offsets[..]) == InitialTable(queueDepth);
    ghost var target := AioLoop(InitialTable(queueDepth), files, queueDepth, env, 0, rounds);
    var round: nat := 0;
    stop := Done;
    while s.fileIndex < |files| || s.inflight > 0
      invariant fds.Length == offsets.Length == queueDepth
      invariant TableOk(With(s, fds[..], offsets[..]), queueDepth)
      invariant AioLoop(With(s, fds[..], offsets[..]), files, queueDepth, env, round, rounds) == target
      decreases rounds - round
    {
      if round >= rounds {
        stop := OutOfRounds;
        break;
      }
      s := s.(submitted := 0);
      ghost var t := With(s, fds[..], offsets[..]);
      DispatchKeeps(t, files, queueDepth, env.openFd);
      s := DispatchAio(fds, offsets, files, queueDepth, env.openFd, s);
      if s.submitted > 0 && env.submitResult(round) < s.submitted {
        stop := SubmitFailed;
        break;
      }
      if s.inflight > 0 {
        var events := env.events(round);
        if events.None? {
          stop := WaitFailed;
          break;
        }
        CompleteKeeps(With(s, fds[..], offsets[..]), events.value, files, env, round, 0);
        s := CompleteAio(fds, offsets, events.value, files, env, round, s);
      }
      round := round + 1;
    }
    table := With(s, fds[..], offsets[..]);
  }

  /**
    `io_warm_files(files, read_size, queue_depth, ...)`: -1 when the
    context or the buffer pool cannot be set up (the kernel refuses a
    `queue_depth` below 1), with whatever was set up released; otherwise the
    loop of `AioLoop` runs for at most `rounds` rounds, the context and the
    pool are released and 0 is returned, also after a failed `io_submit` or
    `io_getevents`.
  */
  method WarmFilesAio(files: seq<FileInfo>, queueDepth: int, env: AioEnv, rounds: nat)
    returns (rc: int, table: AioTable, stop: Stop, trace: seq<Event>)
    requires queueDepth > 0 ==> |env.memalignOk| == queueDepth
    ensures rc == 0 || rc == -1
    ensures rc == 0 <==> env.setupOk && queueDepth > 0 && DiskIo.AllocOk(env.memalignOk)
    ensures rc == 0 ==> (table, stop) == AioLoop(InitialTable(queueDepth), files, queueDepth, env, 0, rounds)
    ensures rc == 0 ==> trace == DiskIo.Session(queueDepth)
    ensures !(env.setupOk && queueDepth > 0) ==> trace == []
    ensures Balanced(trace)
  {
    table, stop, trace := InitialTable(0), Done, [];
    if !(env.setupOk && queueDepth > 0) {
      return -1, table, stop, [];
    }
    var allocRc, allocTrace := AllocateAlignedBuffers(queueDepth, env.memalignOk);
    if allocRc < 0 {
      trace := [Acquire(IoContext)] + allocTrace + [Release(IoContext)];
      DiskIo.AbortedTrace(allocTrace, FirstFailure(env.memalignOk));
      return -1, table, stop, trace;
    }
    table, stop := RunRoundsAio(files, queueDepth, env, rounds);
    var freeTrace := FreeAlignedBuffers(queueDepth);
    trace := [Acquire(IoContext)] + allocTrace + [Release(IoContext)] + freeTrace;
    DiskIo.SessionBalanced(queueDepth);
    rc := 0;
  }
}

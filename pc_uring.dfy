/**
  `io_warm_files_uring` of page-cache-warmer
  (page-cache-warmer/io_operations.c): a table of `queue_depth` requests,
  one per open file, filled from the file list while there is room, and one
  completion handled per round.  The kernel is an environment: the outcome of
  `io_uring_queue_init`, of each `posix_memalign`, of `open` for each file,
  of `io_uring_submit` and of `io_uring_wait_cqe` in each round.  The
  function `UringLoop` is the loop as written; `io_uring_wait_cqe` with
  nothing in flight never returns, which the model records as `Hung`.
*/
module PageCacheUring {
  import opened Wrappers
  import opened Resources
  import opened AlignedBuffers
  import opened PageCacheSlots
  import DiskIo
  import PageCacheFiles

  type FileInfo = PageCacheFiles.FileInfo

  /** `struct request`: the open file, the bytes read so far, its size and its own slot. */
  datatype Request = Request(fd: int, offset: int, totalSize: int, slot: nat)

  /** The request table with `file_index` and `inflight`. */
  datatype Table = Table(requests: seq<Request>, fileIndex: nat, inflight: int)

  /** The completion `io_uring_wait_cqe` hands back: which in-flight request (`pick`) and `res`. */
  datatype Cqe = Cqe(pick: nat, res: int)

  /**
    The kernel's answers: `openFd(i)` is `open` on file i (`None` for a
    negative descriptor), `submitOk(r)` and `cqe(r)` the submit and the wait
    of round r (`None` when the wait fails).
  */
  datatype UringEnv = UringEnv(initOk: bool, memalignOk: seq<bool>, openFd: nat -> Option<nat>,
                               submitOk: nat -> bool, cqe: nat -> Option<Cqe>)

  function Fds(requests: seq<Request>): (fds: seq<int>)
    ensures |fds| == |requests| && forall i :: 0 <= i < |requests| ==> fds[i] == requests[i].fd
  {
    seq(|requests|, i requires 0 <= i < |requests| => requests[i].fd)
  }

  /** The table after `requests[i].fd = -1` for every slot (the other fields are not initialised; 0 here). */
  function InitialTable(queueDepth: nat): Table
  {
    Table(seq(queueDepth, i => Request(FREE, 0, 0, 0)), 0, 0)
  }

  /**
    What the loop keeps: `queue_depth` slots, `inflight` the number of
    occupied ones, each occupied slot's request naming that slot, and
    `file_index` within the list.
  */
  predicate TableOk(t: Table, queueDepth: int, fileCount: nat)
  {
    && |t.requests| == queueDepth
    && t.fileIndex <= fileCount
    && t.inflight == |Occupied(Fds(t.requests))|
    && forall i :: 0 <= i < |t.requests| && t.requests[i].fd != FREE ==> t.requests[i].slot == i
  }

  // ---------------------------------------------------------------------
  // The dispatch loop
  // ---------------------------------------------------------------------

  /**
    The inner `while`: while fewer than `queue_depth` are in flight and files
    remain, the next file is opened into the lowest free slot with offset 0
    and its size, and `file_index` advances; a file that fails to open only
    advances `file_index`.
  */
  function Dispatch(t: Table, files: seq<FileInfo>, queueDepth: int, openFd: nat -> Option<nat>): Table
    decreases |files| - t.fileIndex
  {
    if !(t.inflight < queueDepth && t.fileIndex < |files|) then t
    else
      var q := FirstFree(Fds(t.requests));
      if q == -1 then t
      else
        match openFd(t.fileIndex)
        case None => Dispatch(t.(fileIndex := t.fileIndex + 1), files, queueDepth, openFd)
        case Some(fd) =>
          Dispatch(Table(t.requests[q := Request(fd, 0, files[t.fileIndex].size, q)], t.fileIndex + 1, t.inflight + 1),
                   files, queueDepth, openFd)
  }

  /** Below `queue_depth` in flight, the table has a free slot: the `q_idx == -1` exit is never taken. */
  lemma FreeSlotExists(t: Table, queueDepth: int, fileCount: nat)
    requires TableOk(t, queueDepth, fileCount) && t.inflight < queueDepth
    ensures FirstFree(Fds(t.requests)) != -1
  {
    OccupiedFull(Fds(t.requests));
  }

  /**
    One file taken by the dispatch loop: it goes into the lowest free slot,
    only a successful `open` occupies it and counts as in flight, and either
    way `file_index` moves on by one.
  */
  lemma DispatchStep(t: Table, files: seq<FileInfo>, queueDepth: int, openFd: nat -> Option<nat>)
    requires FirstFree(Fds(t.requests)) != -1 && t.inflight < queueDepth && t.fileIndex < |files|
    ensures var q := FirstFree(Fds(t.requests));
      && 0 <= q < |t.requests| && t.requests[q].fd == FREE
      && (forall i :: 0 <= i < q ==> t.requests[i].fd != FREE)
      && (openFd(t.fileIndex).None? ==>
            Dispatch(t, files, queueDepth, openFd) == Dispatch(t.(fileIndex := t.fileIndex + 1), files, queueDepth, openFd))
      && (openFd(t.fileIndex).Some? ==>
            Dispatch(t, files, queueDepth, openFd) ==
            Dispatch(Table(t.requests[q := Request(openFd(t.fileIndex).value, 0, files[t.fileIndex].size, q)],
                           t.fileIndex + 1, t.inflight + 1), files, queueDepth, openFd))
  {
  }

  /** Placing one file keeps the table invariant. */
  lemma PlaceKeeps(t: Table, fileCount: nat, queueDepth: int, q: nat, r: Request)
    requires TableOk(t, queueDepth, fileCount) && t.fileIndex < fileCount
    requires q < |t.requests| && t.requests[q].fd == FREE && r.fd != FREE && r.slot == q
    ensures TableOk(Table(t.requests[q := r], t.fileIndex + 1, t.inflight + 1), queueDepth, fileCount)
  {
    OccupiedUpdate(Fds(t.requests), q, r.fd);
    assert Fds(t.requests[q := r]) == Fds(t.requests)[q := r.fd];
  }

  /**
    The dispatch loop keeps the invariant, never lowers `file_index`, and
    stops only with the table full or every file taken.
  */
  lemma {:induction false} DispatchKeeps(t: Table, files: seq<FileInfo>, queueDepth: int, openFd: nat -> Option<nat>)
    requires TableOk(t, queueDepth, |files|)
    ensures var d := Dispatch(t, files, queueDepth, openFd);
      && TableOk(d, queueDepth, |files|)
      && t.fileIndex <= d.fileIndex
      && t.inflight <= d.inflight <= (if t.inflight < queueDepth then queueDepth else t.inflight)
      && (d.inflight == queueDepth || d.fileIndex == |files| || (d == t && t.inflight >= queueDepth))
    decreases |files| - t.fileIndex
  {
    if t.inflight < queueDepth && t.fileIndex < |files| {
      FreeSlotExists(t, queueDepth, |files|);
      DispatchStep(t, files, queueDepth, openFd);
      var q := FirstFree(Fds(t.requests));
      match openFd(t.fileIndex)
      case None =>
        DispatchKeeps(t.(fileIndex := t.fileIndex + 1), files, queueDepth, openFd);
      case Some(fd) =>
        var r := Request(fd, 0, files[t.fileIndex].size, q);
        PlaceKeeps(t, |files|, queueDepth, q, r);
        DispatchKeeps(Table(t.requests[q := r], t.fileIndex + 1, t.inflight + 1), files, queueDepth, openFd);
    }
  }

  // ---------------------------------------------------------------------
  // Completions
  // ---------------------------------------------------------------------

  /**
    The request of slot q completed with `res`: a positive result moves its
    offset on by `res` and, while the offset is below the file size, the
    next read is queued and the slot stays occupied; otherwise the file is
    closed, the slot freed and `inflight` drops by one.
  */
  function Complete(t: Table, q: nat, res: int): Table
    requires q < |t.requests|
  {
    var req := t.requests[q];
    if res > 0 then
      var offset := req.offset + res;
      if offset < req.totalSize then t.(requests := t.requests[q := req.(offset := offset)])
      else Table(t.requests[q := req.(offset := offset, fd := FREE)], t.fileIndex, t.inflight - 1)
    else Table(t.requests[q := req.(fd := FREE)], t.fileIndex, t.inflight - 1)
  }

  /** The slot of the completed request: one of the occupied ones. */
  function Picked(t: Table, c: Cqe): (q: nat)
    requires |Occupied(Fds(t.requests))| > 0
    ensures q < |t.requests| && t.requests[q].fd != FREE
  {
    var occ := Occupied(Fds(t.requests));
    occ[c.pick % |occ|]
  }

  /**
    A completion keeps the invariant and touches only its own slot: the
    request stays (with the new offset) exactly when `res > 0` and the
    offset is still below the size, and otherwise its slot is freed.
  */
  lemma CompleteRule(t: Table, fileCount: nat, queueDepth: int, q: nat, res: int)
    requires TableOk(t, queueDepth, fileCount) && q < |t.requests| && t.requests[q].fd != FREE
    ensures var c := Complete(t, q, res);
      var req := t.requests[q];
      var resubmit := res > 0 && req.offset + res < req.totalSize;
      && TableOk(c, queueDepth, fileCount)
      && c.fileIndex == t.fileIndex
      && |c.requests| == |t.requests|
      && (forall i :: 0 <= i < |t.requests| && i != q ==> c.requests[i] == t.requests[i])
      && (resubmit ==> c.requests[q] == req.(offset := req.offset + res) && c.inflight == t.inflight)
      && (!resubmit ==> c.requests[q].fd == FREE && c.inflight == t.inflight - 1)
      && c.requests[q].offset == if res > 0 then req.offset + res else req.offset
  {
    var c := Complete(t, q, res);
    OccupiedUpdate(Fds(t.requests), q, c.requests[q].fd);
    assert Fds(c.requests) == Fds(t.requests)[q := c.requests[q].fd];
  }

  // ---------------------------------------------------------------------
  // The main loop
  // ---------------------------------------------------------------------

  /**
    The outer `while` as written, from round `round` with `rounds` rounds
    allowed: dispatch, submit (a failure ends the loop), then wait for one
    completion; a failed wait only starts the next round.
  */
  function UringLoop(t: Table, files: seq<FileInfo>, queueDepth: int, env: UringEnv, round: nat, rounds: nat)
    : (Table, Stop)
    decreases rounds - round
  {
    if !(t.fileIndex < |files| || t.inflight > 0) then (t, Done)
    else if round >= rounds then (t, OutOfRounds)
    else
      var d := Dispatch(t, files, queueDepth, env.openFd);
      if !env.submitOk(round) then (d, SubmitFailed)
      else if |Occupied(Fds(d.requests))| == 0 then (d, Hung)
      else if env.cqe(round).None? then UringLoop(d, files, queueDepth, env, round + 1, rounds)
      else UringLoop(Complete(d, Picked(d, env.cqe(round).value), env.cqe(round).value.res),
                     files, queueDepth, env, round + 1, rounds)
  }

  /**
    The loop keeps the table invariant, so `inflight` never exceeds
    `queue_depth`; it ends `Done` only with every file taken and every slot
    free.
  */
  lemma {:induction false} UringLoopKeeps(t: Table, files: seq<FileInfo>, queueDepth: int, env: UringEnv,
                                          round: nat, rounds: nat)
    requires TableOk(t, queueDepth, |files|)
    ensures var (e, stop) := UringLoop(t, files, queueDepth, env, round, rounds);
      && TableOk(e, queueDepth, |files|)
      && 0 <= e.inflight <= queueDepth
      && (stop == Done ==> e.fileIndex == |files| && e.inflight == 0 &&
                           forall i :: 0 <= i < |e.requests| ==> e.requests[i].fd == FREE)
    decreases rounds - round
  {
    var (e, stop) := UringLoop(t, files, queueDepth, env, round, rounds);
    if !(t.fileIndex < |files| || t.inflight > 0) {
      OccupiedNone(Fds(t.requests));
    } else if round < rounds {
      DispatchKeeps(t, files, queueDepth, env.openFd);
      var d := Dispatch(t, files, queueDepth, env.openFd);
      if env.submitOk(round) && |Occupied(Fds(d.requests))| != 0 {
        if env.cqe(round).None? {
          UringLoopKeeps(d, files, queueDepth, env, round + 1, rounds);
        } else {
          var c := env.cqe(round).value;
          CompleteRule(d, |files|, queueDepth, Picked(d, c), c.res);
          UringLoopKeeps(Complete(d, Picked(d, c), c.res), files, queueDepth, env, round + 1, rounds);
        }
      }
    }
  }

  /**
    The loop with `io_uring_wait_cqe` skipped when nothing is in flight, as
    the libaio reader does with `if (inflight > 0)`.
  */
  function GuardedLoop(t: Table, files: seq<FileInfo>, queueDepth: int, env: UringEnv, round: nat, rounds: nat)
    : (Table, Stop)
    decreases rounds - round
  {
    if !(t.fileIndex < |files| || t.inflight > 0) then (t, Done)
    else if round >= rounds then (t, OutOfRounds)
    else
      var d := Dispatch(t, files, queueDepth, env.openFd);
      if !env.submitOk(round) then (d, SubmitFailed)
      else if |Occupied(Fds(d.requests))| == 0 then GuardedLoop(d, files, queueDepth, env, round + 1, rounds)
      else if env.cqe(round).None? then GuardedLoop(d, files, queueDepth, env, round + 1, rounds)
      else GuardedLoop(Complete(d, Picked(d, env.cqe(round).value), env.cqe(round).value.res),
                       files, queueDepth, env, round + 1, rounds)
  }

  /** Every file fails to open. */
  ghost predicate NoneOpens(env: UringEnv)
  {
    forall i: nat :: env.openFd(i).None?
  }

  /**
    As written, the loop blocks for good when no file can be opened: the
    dispatch loop passes over every file, nothing is in flight, and
    `io_uring_wait_cqe` waits for a completion that cannot come.
  */
  lemma UnopenableFilesHang(files: seq<FileInfo>, queueDepth: int, env: UringEnv, rounds: nat)
    requires |files| > 0 && queueDepth > 0 && rounds > 0 && NoneOpens(env) && env.submitOk(0)
    ensures UringLoop(InitialTable(queueDepth), files, queueDepth, env, 0, rounds).1 == Hung
  {
    var t := InitialTable(queueDepth);
    OccupiedNone0(queueDepth);
    NoOpenDispatch(t, files, queueDepth, env);
  }

  /** With every open failing, the dispatch loop takes every file and occupies nothing. */
  lemma {:induction false} NoOpenDispatch(t: Table, files: seq<FileInfo>, queueDepth: int, env: UringEnv)
    requires TableOk(t, queueDepth, |files|) && t.inflight == 0 && queueDepth > 0 && NoneOpens(env)
    ensures Dispatch(t, files, queueDepth, env.openFd) == t.(fileIndex := |files|)
    decreases |files| - t.fileIndex
  {
    if t.fileIndex < |files| {
      FreeSlotExists(t, queueDepth, |files|);
      DispatchStep(t, files, queueDepth, env.openFd);
      NoOpenDispatch(t.(fileIndex := t.fileIndex + 1), files, queueDepth, env);
    }
  }

  /** The guarded loop finishes in the same situation, with every file tried. */
  lemma UnopenableFilesFinishGuarded(files: seq<FileInfo>, queueDepth: int, env: UringEnv, rounds: nat)
    requires queueDepth > 0 && rounds > 0 && NoneOpens(env) && env.submitOk(0)
    ensures var (e, stop) := GuardedLoop(InitialTable(queueDepth), files, queueDepth, env, 0, rounds);
      stop == Done && e.fileIndex == |files| && e.inflight == 0
  {
    var t := InitialTable(queueDepth);
    assert TableOk(t, queueDepth, |files|) by {
      OccupiedNone0(queueDepth);
    }
    if |files| > 0 {
      NoOpenDispatch(t, files, queueDepth, env);
    }
  }

  /** The initial table has nothing occupied. */
  lemma OccupiedNone0(queueDepth: nat)
    ensures |Occupied(Fds(InitialTable(queueDepth).requests))| == 0
  {
    var fds := Fds(InitialTable(queueDepth).requests);
    AllFreeUnoccupied(fds);
  }

  /**
    The guarded loop keeps the table invariant too, stops only `Done`, on a
    failed submit or out of rounds, and `Done` means every file taken and
    every slot free.
  */
  lemma {:induction false} GuardedLoopKeeps(t: Table, files: seq<FileInfo>, queueDepth: int, env: UringEnv,
                                            round: nat, rounds: nat)
    requires TableOk(t, queueDepth, |files|)
    ensures var (e, stop) := GuardedLoop(t, files, queueDepth, env, round, rounds);
      && TableOk(e, queueDepth, |files|)
      && stop != Hung && stop != WaitFailed
      && (stop == Done ==> e.fileIndex == |files| && e.inflight == 0 &&
                           forall i :: 0 <= i < |e.requests| ==> e.requests[i].fd == FREE)
    decreases rounds - round
  {
    if !(t.fileIndex < |files| || t.inflight > 0) {
      OccupiedNone(Fds(t.requests));
    } else if round < rounds {
      DispatchKeeps(t, files, queueDepth, env.openFd);
      var d := Dispatch(t, files, queueDepth, env.openFd);
      if env.submitOk(round) {
        if |Occupied(Fds(d.requests))| == 0 || env.cqe(round).None? {
          GuardedLoopKeeps(d, files, queueDepth, env, round + 1, rounds);
        } else {
          var c := env.cqe(round).value;
          CompleteRule(d, |files|, queueDepth, Picked(d, c), c.res);
          GuardedLoopKeeps(Complete(d, Picked(d, c), c.res), files, queueDepth, env, round + 1, rounds);
        }
      }
    }
  }

  // ---------------------------------------------------------------------
  // io_warm_files_uring
  // ---------------------------------------------------------------------

  /** The scan for the first request with `fd == -1`. */
  method FindFreeRequest(requests: array<Request>) returns (q: int)
    ensures q == FirstFree(Fds(requests[..]))
  {
    q := -1;
    var i := 0;
    while i < requests.Length
      invariant 0 <= i <= requests.Length
      invariant forall j :: 0 <= j < i ==> requests[j].fd != FREE
    {
      if requests[i].fd == FREE {
        q := i;
        FirstFreeAt(Fds(requests[..]), i);
        return;
      }
      i := i + 1;
    }
  }

  /** The inner `while` over the request table, as `Dispatch` states it. */
  method DispatchFiles(requests: array<Request>, files: seq<FileInfo>, queueDepth: int, openFd: nat -> Option<nat>,
                       fileIndex0: nat, inflight0: int)
    returns (fileIndex: nat, inflight: int)
    requires TableOk(Table(requests[..], fileIndex0, inflight0), queueDepth, |files|)
    modifies requests
    ensures Table(requests[..], fileIndex, inflight) ==
      Dispatch(Table(old(requests[..]), fileIndex0, inflight0), files, queueDepth, openFd)
  {
    ghost var target := Dispatch(Table(requests[..], fileIndex0, inflight0), files, queueDepth, openFd);
    fileIndex, inflight := fileIndex0, inflight0;
    while inflight < queueDepth && fileIndex < |files|
      invariant TableOk(Table(requests[..], fileIndex, inflight), queueDepth, |files|)
      invariant Dispatch(Table(requests[..], fileIndex, inflight), files, queueDepth, openFd) == target
      decreases |files| - fileIndex
    {
      fileIndex, inflight := DispatchOne(requests, files, queueDepth, openFd, fileIndex, inflight);
    }
  }

  /** One pass of the inner `while`: a free slot is found and the next file opened into it. */
  method DispatchOne(requests: array<Request>, files: seq<FileInfo>, queueDepth: int, openFd: nat -> Option<nat>,
                     fileIndex0: nat, inflight0: int)
    returns (fileIndex: nat, inflight: int)
    requires TableOk(Table(requests[..], fileIndex0, inflight0), queueDepth, |files|)
    requires inflight0 < queueDepth && fileIndex0 < |files|
    modifies requests
    ensures TableOk(Table(requests[..], fileIndex, inflight), queueDepth, |files|)
    ensures fileIndex == fileIndex0 + 1
    ensures Dispatch(Table(requests[..], fileIndex, inflight), files, queueDepth, openFd) ==
      Dispatch(Table(old(requests[..]), fileIndex0, inflight0), files, queueDepth, openFd)
  {
    ghost var t := Table(requests[..], fileIndex0, inflight0);
    FreeSlotExists(t, queueDepth, |files|);
    DispatchStep(t, files, queueDepth, openFd);
    var q := FindFreeRequest(requests);
    var fd := openFd(fileIndex0);
    fileIndex, inflight := fileIndex0 + 1, inflight0;
    if fd.Some? {
      var r := Request(fd.value, 0, files[fileIndex0].size, q);
      PlaceKeeps(t, |files|, queueDepth, q, r);
      requests[q] := r;
      inflight := inflight + 1;
      assert Table(requests[..], fileIndex, inflight) == Table(t.requests[q := r], t.fileIndex + 1, t.inflight + 1);
    } else {
      assert Table(requests[..], fileIndex, inflight) == t.(fileIndex := t.fileIndex + 1);
    }
  }

  /** Handling the one completion of a round in the request table, as `Complete` states it. */
  method CompleteRequest(requests: array<Request>, q: nat, res: int, fileIndex: nat, inflight0: int)
    returns (inflight: int)
    requires q < requests.Length
    modifies requests
    ensures Table(requests[..], fileIndex, inflight) == Complete(Table(old(requests[..]), fileIndex, inflight0), q, res)
  {
    inflight := inflight0;
    var req := requests[q];
    if res > 0 {
      req := req.(offset := req.offset + res);
      if req.offset < req.totalSize {
        requests[q] := req;
      } else {
        requests[q] := req.(fd := FREE);
        inflight := inflight - 1;
      }
    } else {
      requests[q] := req.(fd := FREE);
      inflight := inflight - 1;
    }
  }

  /**
    `io_warm_files_uring(files, read_size, queue_depth, ...)`: -1 when the
    ring or the buffer pool cannot be set up (the kernel refuses a
    `queue_depth` below 1), with whatever was set up released; otherwise the
    loop of `UringLoop` runs for at most `rounds` rounds, the ring and the
    pool are released and 0 is returned.
  */
  method WarmFilesUring(files: seq<FileInfo>, queueDepth: int, env: UringEnv, rounds: nat)
    returns (rc: int, table: Table, stop: Stop, trace: seq<Event>)
    requires queueDepth > 0 ==> |env.memalignOk| == queueDepth
    ensures rc == 0 || rc == -1
    ensures rc == 0 <==> env.initOk && queueDepth > 0 && DiskIo.AllocOk(env.memalignOk)
    ensures rc == 0 ==> (table, stop) == UringLoop(InitialTable(queueDepth), files, queueDepth, env, 0, rounds)
    ensures rc == 0 ==> trace == DiskIo.Session(queueDepth)
    ensures !(env.initOk && queueDepth > 0) ==> trace == []
    ensures Balanced(trace)
  {
    table, stop, trace := InitialTable(0), Done, [];
    if !(env.initOk && queueDepth > 0) {
      return -1, table, stop, [];
    }
    var allocRc, allocTrace := AllocateAlignedBuffers(queueDepth, env.memalignOk);
    if allocRc < 0 {
      trace := [Acquire(IoContext)] + allocTrace + [Release(IoContext)];
      DiskIo.AbortedTrace(allocTrace, FirstFailure(env.memalignOk));
      return -1, table, stop, trace;
    }
    table, stop := RunRounds(files, queueDepth, env, rounds);
    var freeTrace := FreeAlignedBuffers(queueDepth);
    trace := [Acquire(IoContext)] + allocTrace + [Release(IoContext)] + freeTrace;
    DiskIo.SessionBalanced(queueDepth);
    rc := 0;
  }

  /** The outer `while` over a fresh request table, as `UringLoop` states it. */
  method RunRounds(files: seq<FileInfo>, queueDepth: nat, env: UringEnv, rounds: nat) returns (table: Table, stop: Stop)
    ensures (table, stop) == UringLoop(InitialTable(queueDepth), files, queueDepth, env, 0, rounds)
  {
    var requests := new Request[queueDepth](i => Request(FREE, 0, 0, 0));
    assert requests[..] == InitialTable(queueDepth).requests;
    OccupiedNone0(queueDepth);
    ghost var target := UringLoop(InitialTable(queueDepth), files, queueDepth, env, 0, rounds);
    var fileIndex: nat, inflight: int := 0, 0;
    var round: nat := 0;
    stop := Done;
    while fileIndex < |files| || inflight > 0
      invariant TableOk(Table(requests[..], fileIndex, inflight), queueDepth, |files|)
      invariant UringLoop(Table(requests[..], fileIndex, inflight), files, queueDepth, env, round, rounds) == target
      decreases rounds - round
    {
      if round >= rounds {
        stop := OutOfRounds;
        break;
      }
      ghost var t := Table(requests[..], fileIndex, inflight);
      DispatchKeeps(t, files, queueDepth, env.openFd);
      fileIndex, inflight := DispatchFiles(requests, files, queueDepth, env.openFd, fileIndex, inflight);
      if !env.submitOk(round) {
        stop := SubmitFailed;
        break;
      }
      var occupied := Occupied(Fds(requests[..]));
      if |occupied| == 0 {
        stop := Hung;
        break;
      }
      var cqe := env.cqe(round);
      if cqe.Some? {
        ghost var d := Table(requests[..], fileIndex, inflight);
        var q := occupied[cqe.value.pick % |occupied|];
        assert q == Picked(d, cqe.value);
        CompleteRule(d, |files|, queueDepth, q, cqe.value.res);
        inflight := CompleteRequest(requests, q, cqe.value.res, fileIndex, inflight);
      }
      round := round + 1;
    }
    table := Table(requests[..], fileIndex, inflight);
  }
}

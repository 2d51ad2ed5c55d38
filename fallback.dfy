/**
  The OS-hint fallback (src/warming/fallback.rs): ask the kernel to read the
  file ahead and then drop it again, with `posix_fadvise` on Linux and an
  `mmap` + `madvise` on macOS.  Whether each system call succeeds is an
  input.
*/
module Fallback {
  import opened Warming
  import opened Resources

  /** What a hint routine reports and the calls and mapping events it made. */
  datatype HintRun = HintRun(success: bool, calls: seq<Call>, events: seq<Event>)

  /**
    `warm_with_fadvise(file, file_size)`: WILLNEED over the whole file, then
    DONTNEED only when that worked; the DONTNEED result is only logged.
  */
  function WarmWithFadvise(fileSize: nat, willNeedOk: bool): HintRun
  {
    var willNeed := [Fadvise(WillNeed, fileSize)];
    if willNeedOk then HintRun(true, willNeed + [Fadvise(DontNeed, fileSize)], [])
    else HintRun(false, willNeed, [])
  }

  /**
    `warm_with_madvise(file, file_size)`: map the file; if that fails report
    failure.  Otherwise WILLNEED, then FREE only when that worked, then unmap;
    the result is whether WILLNEED worked.
  */
  function WarmWithMadvise(fileSize: nat, mmapOk: bool, willNeedOk: bool): HintRun
  {
    if !mmapOk then HintRun(false, [Mmap(fileSize)], [])
    else
      var drop := if willNeedOk then [Madvise(Free, fileSize)] else [];
      HintRun(willNeedOk, [Mmap(fileSize), Madvise(WillNeed, fileSize)] + drop + [Munmap(fileSize)],
              [Acquire(Mapping), Release(Mapping)])
  }

  /** The outcomes of the hint system calls. */
  datatype HintEnv = HintEnv(fadviseOk: bool, mmapOk: bool, madviseOk: bool)

  /**
    `warm_with_os_hints(path, file_size)`: an open error is passed up;
    otherwise the result is always `Ok`, and its `success` is that of the
    platform's hint routine (`false` on a platform with neither).
  */
  function WarmWithOsHints(fileSize: nat, os: Os, open: OpenOutcome, env: HintEnv): Attempt
  {
    match open
    case OpenFailed(e) => Attempt(Err(e), [Open(false)], [], [])
    case Opened(_) =>
      match os
      case Linux =>
        var h := WarmWithFadvise(fileSize, env.fadviseOk);
        Attempt(Ok(WarmingResult("linux_fadvise", h.success)), [Open(false)] + h.calls, [], h.events)
      case MacOs =>
        var h := WarmWithMadvise(fileSize, env.mmapOk, env.madviseOk);
        Attempt(Ok(WarmingResult("macos_madvise", h.success)), [Open(false)] + h.calls, [], h.events)
      case OtherOs => Attempt(Ok(WarmingResult("os_hints_unsupported", false)), [Open(false)], [], [])
  }

  // ---------------------------------------------------------------------
  // Properties
  // ---------------------------------------------------------------------

  /** Whether a call list holds a hint with this advice. */
  predicate Advises(calls: seq<Call>, advice: Advice)
  {
    exists i :: 0 <= i < |calls| && (calls[i].Fadvise? || calls[i].Madvise?) && calls[i].advice == advice
  }

  /**
    fadvise: success is exactly the WILLNEED result; the pages are dropped
    (DONTNEED) iff WILLNEED worked, and always after it.
  */
  lemma FadviseDropsOnlyAfterWarm(fileSize: nat, willNeedOk: bool)
    ensures var h := WarmWithFadvise(fileSize, willNeedOk);
      && h.success == willNeedOk
      && h.calls[0] == Fadvise(WillNeed, fileSize)
      && (Advises(h.calls, DontNeed) <==> willNeedOk)
      && (forall i :: 0 <= i < |h.calls| && h.calls[i] == Fadvise(DontNeed, fileSize) ==> i == 1)
      && (forall i :: 0 <= i < |h.calls| ==> h.calls[i].Fadvise?)
      && h.events == []
  {
    var h := WarmWithFadvise(fileSize, willNeedOk);
    if willNeedOk {
      assert h.calls[1] == Fadvise(DontNeed, fileSize);
    }
  }

  /**
    madvise: a failed mapping reports failure and issues no advice; a
    successful one is unmapped exactly once, as the last call, the FREE comes
    only after a successful WILLNEED, and the mapping is balanced.
  */
  lemma MadviseUnmapsOnce(fileSize: nat, mmapOk: bool, willNeedOk: bool)
    ensures var h := WarmWithMadvise(fileSize, mmapOk, willNeedOk);
      && h.success == (mmapOk && willNeedOk)
      && (!mmapOk ==> !Advises(h.calls, WillNeed) && !Advises(h.calls, Free) && h.events == [])
      && (mmapOk ==>
            h.calls[0] == Mmap(fileSize) && h.calls[1] == Madvise(WillNeed, fileSize) &&
            h.calls[|h.calls| - 1] == Munmap(fileSize) &&
            (forall i :: 0 <= i < |h.calls| && h.calls[i].Munmap? ==> i == |h.calls| - 1))
      && (Advises(h.calls, Free) <==> mmapOk && willNeedOk)
      && Balanced(h.events)
  {
    var h := WarmWithMadvise(fileSize, mmapOk, willNeedOk);
    if mmapOk {
      MappingBalanced();
      if willNeedOk {
        assert h.calls[2] == Madvise(Free, fileSize);
      }
    } else {
      assert WellFormed([]) && Live([]) == {};
    }
  }

  lemma MappingBalanced()
    ensures Balanced([Acquire(Mapping), Release(Mapping)])
  {
    ReplayAppend([], Acquire(Mapping));
    assert [Acquire(Mapping)] == [] + [Acquire(Mapping)];
    ReplayAppend([Acquire(Mapping)], Release(Mapping));
    assert [Acquire(Mapping), Release(Mapping)] == [Acquire(Mapping)] + [Release(Mapping)];
  }

  /**
    `warm_with_os_hints`: `Err` exactly when the open fails, with the open's
    error and no hint issued; otherwise `Ok` with the platform's tag, and
    `success` iff that platform's read-ahead hint worked.
  */
  lemma OsHintsOutcome(fileSize: nat, os: Os, open: OpenOutcome, env: HintEnv)
    ensures var a := WarmWithOsHints(fileSize, os, open, env);
      && (a.outcome.Err? <==> open.OpenFailed?)
      && (open.OpenFailed? ==> a.outcome.error == open.error && a.calls == [Open(false)])
      && (a.outcome.Ok? ==>
            a.outcome.result.tag == (match os
                                     case Linux => "linux_fadvise"
                                     case MacOs => "macos_madvise"
                                     case OtherOs => "os_hints_unsupported") &&
            (a.outcome.result.success <==> (os == Linux && env.fadviseOk) ||
                                           (os == MacOs && env.mmapOk && env.madviseOk)))
      && a.accesses == []
      && Balanced(a.events)
  {
    var a := WarmWithOsHints(fileSize, os, open, env);
    if open.Opened? && os == MacOs {
      MadviseUnmapsOnce(fileSize, env.mmapOk, env.madviseOk);
    } else {
      assert a.events == [];
      assert WellFormed([]) && Live([]) == {};
    }
  }
}

/**
  Strategy selection (rust-cache-warmer/src/warming/mod.rs): io_uring if it
  is compiled in and asked for, else libaio likewise, else the OS hints when
  they report success, else the Tokio reader.  A selected native backend's
  result is returned as it is, `Unsupported` included: there is no fall
  through.  Each backend opens the file itself, so every open and system
  call outcome it sees is an input of its own.
*/
module Engine {
  import opened Warming
  import opened Resources
  import IoUring
  import Libaio
  import Fallback
  import TokioAsync

  /** What each backend would meet: its opens, allocations and system calls. */
  datatype Env = Env(
    uringOpen: OpenOutcome, uringAlloc: bool,
    aioOpen: OpenOutcome, rioOk: bool, aioAlloc: nat -> bool,
    hintsOpen: OpenOutcome, hints: Fallback.HintEnv,
    plainOpen: OpenOutcome, directOpen: OpenOutcome, tokioAlloc: bool)

  /** Two attempts one after the other: the second one's outcome, both traces. */
  function Then(first: Attempt, second: Attempt): Attempt
  {
    Attempt(second.outcome, first.calls + second.calls, first.accesses + second.accesses, first.events + second.events)
  }

  function UringRun(build: Build, fileSize: nat, options: WarmingOptions, env: Env): Attempt
  {
    IoUring.WarmFile(build, fileSize, options, env.uringOpen, env.uringAlloc)
  }

  function LibaioRun(build: Build, fileSize: nat, options: WarmingOptions, env: Env): Attempt
  {
    Libaio.WarmFile(build, fileSize, options, env.aioOpen, env.rioOk, env.aioAlloc)
  }

  function HintsRun(build: Build, fileSize: nat, env: Env): Attempt
  {
    Fallback.WarmWithOsHints(fileSize, build.os, env.hintsOpen, env.hints)
  }

  function TokioRun(build: Build, fileSize: nat, options: WarmingOptions, env: Env): Attempt
  {
    TokioAsync.WarmFile(fileSize, options, build.os, env.plainOpen, env.directOpen, env.tokioAlloc)
  }

  /** Whether an attempt came back `Ok` with `success` set. */
  predicate Succeeded(a: Attempt)
  {
    a.outcome.Ok? && a.outcome.result.success
  }

  /** `warming::warm_file(path, file_size, options)`. */
  function WarmFile(build: Build, fileSize: nat, options: WarmingOptions, env: Env): Attempt
  {
    if UringCompiled(build) && options.useIoUring then UringRun(build, fileSize, options, env)
    else if LibaioCompiled(build) && options.useLibaio then LibaioRun(build, fileSize, options, env)
    else
      var hints := HintsRun(build, fileSize, env);
      if Succeeded(hints) then hints
      else Then(hints, TokioRun(build, fileSize, options, env))
  }

  // ---------------------------------------------------------------------
  // Properties
  // ---------------------------------------------------------------------

  /**
    io_uring, when compiled in and asked for, decides the result alone, and
    without direct I/O that result is `Unsupported` with nothing opened.
    This holds whatever `use_libaio` says, so io_uring beats libaio.
  */
  lemma UringWins(build: Build, fileSize: nat, options: WarmingOptions, env: Env)
    requires UringCompiled(build) && options.useIoUring
    ensures var a := WarmFile(build, fileSize, options, env);
      && a == UringRun(build, fileSize, options, env)
      && (!options.useDirectIo ==> a.outcome == Err(Unsupported) && a.calls == [] && a.accesses == [])
      && (a.outcome.Ok? ==> a.outcome.result.tag in {"io_uring_direct_sparse", "io_uring_direct_full"})
  {
    IoUring.WarmFileOutcome(build, fileSize, options, env.uringOpen, env.uringAlloc);
  }

  /** Otherwise libaio, when compiled in and asked for, decides the result alone. */
  lemma LibaioSecond(build: Build, fileSize: nat, options: WarmingOptions, env: Env)
    requires !(UringCompiled(build) && options.useIoUring) && LibaioCompiled(build) && options.useLibaio
    ensures var a := WarmFile(build, fileSize, options, env);
      && a == LibaioRun(build, fileSize, options, env)
      && (!options.useDirectIo ==> a.outcome == Err(Unsupported) && a.calls == [] && a.accesses == [])
      && (a.outcome.Ok? ==> a.outcome.result.tag in {"libaio_direct_sparse", "libaio_direct_full"})
  {
    Libaio.WarmFileOutcome(build, fileSize, options, env.aioOpen, env.rioOk, env.aioAlloc);
  }

  /**
    With neither native backend selected, the hints' result comes back iff it
    is `Ok` with `success`; an `Err` or `success == false` from the hints never
    surfaces, and the Tokio reader's outcome is returned instead.
  */
  lemma HintsOnlyOnSuccess(build: Build, fileSize: nat, options: WarmingOptions, env: Env)
    requires !(UringCompiled(build) && options.useIoUring) && !(LibaioCompiled(build) && options.useLibaio)
    ensures var a := WarmFile(build, fileSize, options, env);
      var hints := HintsRun(build, fileSize, env);
      && (Succeeded(hints) ==> a == hints)
      && (!Succeeded(hints) ==> a.outcome == TokioRun(build, fileSize, options, env).outcome)
      && (a.outcome.Ok? && a.outcome.result.tag in {"linux_fadvise", "macos_madvise"} <==> Succeeded(hints))
  {
    var hints := HintsRun(build, fileSize, env);
    Fallback.OsHintsOutcome(fileSize, build.os, env.hintsOpen, env.hints);
    var t := TokioRun(build, fileSize, options, env);
    TokioAsync.DirectIoOutcome(fileSize, options.sparseLargeFiles, env.directOpen, env.tokioAlloc);
    TokioAsync.ManualReadingOutcome(fileSize, options.sparseLargeFiles, build.os, env.plainOpen);
    if !Succeeded(hints) {
      assert t.outcome.Ok? ==> t.outcome.result.tag !in {"linux_fadvise", "macos_madvise"};
    }
  }

  /**
    On a platform without hints the `os_hints_unsupported` result is never
    returned: its `success` is false, so the Tokio reader runs instead.
  */
  lemma UnsupportedHintsNeverSurface(build: Build, fileSize: nat, options: WarmingOptions, env: Env)
    ensures var a := WarmFile(build, fileSize, options, env);
      !(a.outcome.Ok? && a.outcome.result.tag == "os_hints_unsupported")
  {
    var a := WarmFile(build, fileSize, options, env);
    if !(UringCompiled(build) && options.useIoUring) && !(LibaioCompiled(build) && options.useLibaio) {
      HintsOnlyOnSuccess(build, fileSize, options, env);
      Fallback.OsHintsOutcome(fileSize, build.os, env.hintsOpen, env.hints);
      TokioAsync.DirectIoOutcome(fileSize, options.sparseLargeFiles, env.directOpen, env.tokioAlloc);
      TokioAsync.ManualReadingOutcome(fileSize, options.sparseLargeFiles, build.os, env.plainOpen);
    } else if UringCompiled(build) && options.useIoUring {
      UringWins(build, fileSize, options, env);
    } else {
      LibaioSecond(build, fileSize, options, env);
    }
  }

  /**
    Whichever backends run, every buffer and mapping they acquire is
    released: the whole trace of a `warm_file` call is balanced.
  */
  lemma WarmFileBalanced(build: Build, fileSize: nat, options: WarmingOptions, env: Env)
    ensures Balanced(WarmFile(build, fileSize, options, env).events)
  {
    if UringCompiled(build) && options.useIoUring {
      IoUring.WarmFileOutcome(build, fileSize, options, env.uringOpen, env.uringAlloc);
    } else if LibaioCompiled(build) && options.useLibaio {
      Libaio.WarmFileOutcome(build, fileSize, options, env.aioOpen, env.rioOk, env.aioAlloc);
    } else {
      var hints := HintsRun(build, fileSize, env);
      Fallback.OsHintsOutcome(fileSize, build.os, env.hintsOpen, env.hints);
      if !Succeeded(hints) {
        var t := TokioRun(build, fileSize, options, env);
        TokioAsync.DirectIoOutcome(fileSize, options.sparseLargeFiles, env.directOpen, env.tokioAlloc);
        TokioAsync.ManualReadingOutcome(fileSize, options.sparseLargeFiles, build.os, env.plainOpen);
        assert Balanced(t.events) by {
          if !(options.useDirectIo && build.os == Linux) {
            assert t.events == [];
            assert WellFormed([]) && Live([]) == {};
          }
        }
        BalancedConcat(hints.events, t.events);
      }
    }
  }
}

/**
  page-cache-warmer's configuration (page-cache-warmer/main.c): the
  defaults of `config_init`, the `getopt_long` loop of `config_parse_args`
  with its clamps, and the throttle arithmetic of `main` that turns
  `--throttle` into a nice value and an I/O priority, set before the work
  and restored after it.
*/
module PageCacheConfig {

  const DEFAULT_READ_SIZE_KB: int := 128
  const DEFAULT_QUEUE_DEPTH: int := 128
  /** The bounds `--threads` is clamped to. */
  const MIN_THREADS: int := 1
  const MAX_THREADS: int := 16
  /** The bounds `--throttle` is clamped to. */
  const MAX_THROTTLE: int := 7
  /** The shift of the class in a Linux I/O priority value (`IOPRIO_CLASS_SHIFT`). */
  const IOPRIO_CLASS_SHIFT: bv32 := 13

  /** `struct config`; the mode flags are C ints, 0 or 1. */
  datatype Config = Config(readSizeKb: int, queueDepth: int, silentMode: int, syslogMode: int,
                           numDirectories: int, directories: seq<string>, debugMode: int, maxDepth: int,
                           numThreads: int, throttle: int)

  /** The clamps every configuration the parser produces satisfies. */
  predicate Clamped(c: Config)
  {
    MIN_THREADS <= c.numThreads <= MAX_THREADS && 0 <= c.throttle <= MAX_THROTTLE
  }

  /**
    `config_init`: reads of 128 KiB, 128 requests in flight, no mode flag,
    no directory, unlimited depth, one discovery thread and no throttling;
    these defaults already satisfy the clamps.
  */
  function ConfigInit(): (c: Config)
    ensures Clamped(c) && c.numDirectories == |c.directories| == 0
    ensures c.readSizeKb == DEFAULT_READ_SIZE_KB && c.queueDepth == DEFAULT_QUEUE_DEPTH
    ensures c.maxDepth == -1 && c.numThreads == 1 && c.throttle == 0
    ensures c.silentMode == c.syslogMode == c.debugMode == 0
  {
    Config(DEFAULT_READ_SIZE_KB, DEFAULT_QUEUE_DEPTH, 0, 0, 0, [], 0, -1, 1, 0)
  }

  /**
    One option as `getopt_long` returns it, with its argument already
    converted: `atoi` for `-q`, `-D` and `-T` (an int), `atol` for `-r` and
    `-P` (a long).  `Unknown` is the `'?'` of an unrecognised option or a
    missing argument.
  */
  datatype Opt = ReadSizeKb(kb: int) | QueueDepth(n: int) | Syslog | Silent | Debug | Help | Version
               | MaxDepth(depth: int) | Threads(n: int) | Throttle(level: int) | Unknown

  /** `n` brought into `[lo, hi]` by the two `if`s of the parser. */
  function Clamp(n: int, lo: int, hi: int): (r: int)
    requires lo <= hi
    ensures lo <= r <= hi
    ensures lo <= n <= hi ==> r == n
    ensures n < lo ==> r == lo
    ensures n > hi ==> r == hi
  {
    var r := if n < lo then lo else n;
    if r > hi then hi else r
  }

  /** The assignment of a `long` to a 32-bit `int`: two's-complement wrap-around. */
  function ToInt32(n: int): (r: int)
    ensures -0x8000_0000 <= r < 0x8000_0000
    ensures -0x8000_0000 <= n < 0x8000_0000 ==> r == n
    ensures (r - n) % 0x1_0000_0000 == 0
  {
    var m := n % 0x1_0000_0000;
    if m >= 0x8000_0000 then m - 0x1_0000_0000 else m
  }

  /** One option's `case` while parsing continues (the `Help`, `Version` and `Unknown` cases return instead). */
  function Apply(c: Config, o: Opt): Config
  {
    match o
    case ReadSizeKb(kb) => c.(readSizeKb := kb)
    case QueueDepth(n) => c.(queueDepth := n)
    case Syslog => c.(syslogMode := 1)
    case Silent => c.(silentMode := 1)
    case Debug => c.(debugMode := 1)
    case MaxDepth(d) => c.(maxDepth := d)
    case Threads(n) => c.(numThreads := Clamp(n, MIN_THREADS, MAX_THREADS))
    case Throttle(level) => c.(throttle := Clamp(ToInt32(level), 0, MAX_THROTTLE))
    case _ => c
  }

  /** The options that end the parse: `-h` and `-v` with 0, anything unrecognised with -1. */
  predicate Ends(o: Opt)
  {
    o.Help? || o.Version? || o.Unknown?
  }

  /**
    `config_parse_args` from `c`, over the options `getopt_long` returns
    and the operands it leaves: 0 for help or version, -1 for an unknown
    option or when no directory remains, otherwise 1 with the operands as
    the directories.
  */
  function Parse(c: Config, opts: seq<Opt>, operands: seq<string>): (int, Config)
    decreases |opts|
  {
    if opts == [] then
      if |operands| == 0 then (-1, c)
      else (1, c.(numDirectories := |operands|, directories := operands))
    else if opts[0].Help? || opts[0].Version? then (0, c)
    else if opts[0].Unknown? then (-1, c)
    else Parse(Apply(c, opts[0]), opts[1..], operands)
  }

  /** Every option keeps the clamps. */
  lemma ApplyClamped(c: Config, o: Opt)
    requires Clamped(c)
    ensures Clamped(Apply(c, o))
  {
  }

  /**
    What the parser returns: 1 exactly when no option ends it and at least
    one directory remains, and then every operand is a directory; 0 exactly
    when a help or version option comes before any unknown one; the
    configuration always satisfies the clamps when it started from ones
    that did.
  */
  lemma {:induction false} ParseOutcome(c: Config, opts: seq<Opt>, operands: seq<string>)
    ensures var (rc, c') := Parse(c, opts, operands);
      && (rc == 1 <==> (forall i :: 0 <= i < |opts| ==> !Ends(opts[i])) && |operands| > 0)
      && (rc == 1 ==> c'.numDirectories == |operands| && c'.directories == operands)
      && (rc == 0 <==> exists i :: 0 <= i < |opts| && (opts[i].Help? || opts[i].Version?)
                                  && forall j :: 0 <= j < i ==> !opts[j].Unknown?)
      && (rc == -1 || rc == 0 || rc == 1)
      && (Clamped(c) ==> Clamped(c'))
    decreases |opts|
  {
    if opts != [] && !Ends(opts[0]) {
      if Clamped(c) {
        ApplyClamped(c, opts[0]);
      }
      ParseOutcome(Apply(c, opts[0]), opts[1..], operands);
      var rc := Parse(c, opts, operands).0;
      if rc == 0 {
        var i :| 0 <= i < |opts[1..]| && (opts[1..][i].Help? || opts[1..][i].Version?)
                 && forall j :: 0 <= j < i ==> !opts[1..][j].Unknown?;
        assert opts[i + 1] == opts[1..][i];
        assert forall j :: 0 <= j < i + 1 ==> !opts[j].Unknown? by {
          forall j | 0 <= j < i + 1
            ensures !opts[j].Unknown?
          {
            if j > 0 {
              assert opts[j] == opts[1..][j - 1];
            }
          }
        }
      }
      if rc != 0 {
        forall i | 0 <= i < |opts| && (opts[i].Help? || opts[i].Version?)
          ensures exists j :: 0 <= j < i && opts[j].Unknown?
        {
          assert i > 0 && opts[1..][i - 1] == opts[i];
          var j :| 0 <= j < i - 1 && opts[1..][j].Unknown?;
          assert opts[j + 1] == opts[1..][j];
        }
      }
      if rc == 1 {
        forall i | 0 <= i < |opts|
          ensures !Ends(opts[i])
        {
          if i > 0 {
            assert opts[i] == opts[1..][i - 1];
          }
        }
      }
    }
  }

  /**
    The `while` over `getopt_long`'s results with its `switch`, as `Parse`
    states it.
  */
  method ParseArgs(c0: Config, opts: seq<Opt>, operands: seq<string>) returns (rc: int, c: Config)
    ensures (rc, c) == Parse(c0, opts, operands)
  {
    c := c0;
    var k := 0;
    while k < |opts|
      invariant 0 <= k <= |opts|
      invariant Parse(c, opts[k..], operands) == Parse(c0, opts, operands)
    {
      assert opts[k..][0] == opts[k] && opts[k..][1..] == opts[k + 1..];
      match opts[k] {
      case Help => return 0, c;
      case Version => return 0, c;
      case Unknown => return -1, c;
      case ReadSizeKb(kb) => c := c.(readSizeKb := kb);
      case QueueDepth(n) => c := c.(queueDepth := n);
      case Syslog => c := c.(syslogMode := 1);
      case Silent => c := c.(silentMode := 1);
      case Debug => c := c.(debugMode := 1);
      case MaxDepth(d) => c := c.(maxDepth := d);
      case Threads(n) =>
        var threads := n;
        if threads < MIN_THREADS {
          threads := MIN_THREADS;
        }
        if threads > MAX_THREADS {
          threads := MAX_THREADS;
        }
        c := c.(numThreads := threads);
      case Throttle(level) =>
        var throttle := ToInt32(level);
        if throttle < 0 {
          throttle := 0;
        }
        if throttle > MAX_THROTTLE {
          throttle := MAX_THROTTLE;
        }
        c := c.(throttle := throttle);
      }
      k := k + 1;
    }
    if |operands| == 0 {
      return -1, c;
    }
    c := c.(numDirectories := |operands|, directories := operands);
    rc := 1;
  }

  /** The exit status of `main` after a parse that ended it: 0 for help or version, 1 otherwise. */
  function ParseExit(parseResult: int): (status: int)
    requires parseResult <= 0
    ensures status == 0 <==> parseResult == 0
    ensures status == 0 || status == 1
  {
    if parseResult == 0 then 0 else 1
  }

  // ---------------------------------------------------------------------
  // Throttling
  // ---------------------------------------------------------------------

  /** The scheduling a positive `throttle` asks for. */
  datatype Priorities = Priorities(nice: int, ioClass: int, ioLevel: int, ioprio: int)

  /**
    `nice = 10 + throttle`; the I/O class is idle (3) from throttle 4 on
    and best-effort (2) below it; the level is 0 in the idle class and
    `throttle + 3`, at most 7, in the best-effort one; the priority value
    packs the class above bit 13 and the level below it.
  */
  function ThrottlePriorities(throttle: int): (p: Priorities)
    requires throttle > 0
    ensures p.nice == 10 + throttle
    ensures p.ioClass == 3 <==> throttle >= 4
    ensures p.ioClass == 2 || p.ioClass == 3
    ensures 0 <= p.ioLevel <= 7
  {
    var ioClass := if throttle >= 4 then 3 else 2;
    var level := if ioClass == 3 then 0 else throttle + 3;
    var ioLevel := if level > 7 then 7 else level;
    Priorities(10 + throttle, ioClass, ioLevel,
               (((ioClass as bv32) << IOPRIO_CLASS_SHIFT) | (ioLevel as bv32)) as int)
  }

  /**
    The ioprio value is the class times 2^13 plus the level, so the kernel's
    `IOPRIO_PRIO_CLASS` (the bits from 13 up) and `IOPRIO_PRIO_DATA` (the
    13 bits below) give back the class and the level.
  */
  lemma IoprioDecodes(throttle: int)
    requires throttle > 0
    ensures var p := ThrottlePriorities(throttle);
      && p.ioprio == p.ioClass * 8192 + p.ioLevel
      && p.ioprio / 8192 == p.ioClass && p.ioprio % 8192 == p.ioLevel
  {
    var p := ThrottlePriorities(throttle);
    Pack(p.ioClass, p.ioLevel);
  }

  /** Packing a class of 2 or 3 and a level below 8 adds the shifted class to the level. */
  lemma Pack(ioClass: int, ioLevel: int)
    requires (ioClass == 2 || ioClass == 3) && 0 <= ioLevel <= 7
    ensures (((ioClass as bv32) << IOPRIO_CLASS_SHIFT) | (ioLevel as bv32)) as int == ioClass * 8192 + ioLevel
  {
    var l := ioLevel as bv32;
    assert l & 0x7 == l;
    if ioClass == 2 {
      assert (2 as bv32) << IOPRIO_CLASS_SHIFT == 0x4000;
      assert 0x4000 | l == 0x4000 + l;
    } else {
      assert (3 as bv32) << IOPRIO_CLASS_SHIFT == 0x6000;
      assert 0x6000 | l == 0x6000 + l;
    }
  }

  /**
    A stronger throttle never gets more of the machine: the nice value does
    not fall, and the I/O priority does not rise (the idle class ranks below
    every best-effort level, and a larger best-effort level is a lower
    priority).
  */
  lemma ThrottleMonotone(a: int, b: int)
    requires 0 < a <= b
    ensures ThrottlePriorities(a).nice <= ThrottlePriorities(b).nice
    ensures IoRank(ThrottlePriorities(a)) <= IoRank(ThrottlePriorities(b))
  {
  }

  /** How far down the I/O scheduler a priority puts the process: the best-effort level, and 8 for the idle class. */
  function IoRank(p: Priorities): int
  {
    if p.ioClass == 3 then 8 else p.ioLevel
  }

  /** The calls `main` makes about scheduling, around the work of discovering and warming. */
  datatype Call = GetNice | GetIoprio | SetNice(nice: int) | SetIoprio(ioprio: int) | Work

  /**
    `main` after a successful parse, for the process's current nice value
    `nice0` and I/O priority `ioprio0` (which the two get calls return):
    with a positive throttle they are read, the throttled values set, the
    work done and the read values set back; otherwise only the work.
  */
  function MainCalls(throttle: int, nice0: int, ioprio0: int): seq<Call>
  {
    if throttle > 0 then
      var p := ThrottlePriorities(throttle);
      [GetNice, GetIoprio, SetNice(p.nice), SetIoprio(p.ioprio), Work, SetNice(nice0), SetIoprio(ioprio0)]
    else [Work]
  }

  /** The nice value and I/O priority in effect after `calls`, starting from `nice` and `ioprio`. */
  function InEffect(calls: seq<Call>, nice: int, ioprio: int): (int, int)
    decreases |calls|
  {
    if calls == [] then (nice, ioprio)
    else match calls[0]
      case SetNice(n) => InEffect(calls[1..], n, ioprio)
      case SetIoprio(p) => InEffect(calls[1..], nice, p)
      case _ => InEffect(calls[1..], nice, ioprio)
  }

  /** The position of the work among the calls. */
  function WorkIndex(calls: seq<Call>): (i: int)
    ensures -1 <= i < |calls|
    ensures i >= 0 ==> calls[i] == Work && forall j :: 0 <= j < i ==> calls[j] != Work
    ensures i == -1 ==> forall j :: 0 <= j < |calls| ==> calls[j] != Work
    decreases |calls|
  {
    if calls == [] then -1
    else if calls[0] == Work then 0
    else
      var i := WorkIndex(calls[1..]);
      if i == -1 then -1 else i + 1
  }

  /** The calls after `a` start from what `a` leaves in effect. */
  lemma {:induction false} InEffectAppend(a: seq<Call>, b: seq<Call>, nice: int, ioprio: int)
    ensures InEffect(a + b, nice, ioprio) == InEffect(b, InEffect(a, nice, ioprio).0, InEffect(a, nice, ioprio).1)
    decreases |a|
  {
    if a != [] {
      assert (a + b)[1..] == a[1..] + b;
      match a[0]
      case SetNice(n) => InEffectAppend(a[1..], b, n, ioprio);
      case SetIoprio(p) => InEffectAppend(a[1..], b, nice, p);
      case _ => InEffectAppend(a[1..], b, nice, ioprio);
    } else {
      assert a + b == b;
    }
  }

  /** A `Work` call after calls that are not `Work` is found at their length. */
  lemma {:induction false} WorkIndexAfter(a: seq<Call>, b: seq<Call>)
    requires (forall j :: 0 <= j < |a| ==> a[j] != Work) && b != [] && b[0] == Work
    ensures WorkIndex(a + b) == |a|
    decreases |a|
  {
    if a == [] {
      assert a + b == b;
    } else {
      assert (a + b)[0] == a[0] && (a + b)[1..] == a[1..] + b;
      WorkIndexAfter(a[1..], b);
    }
  }

  /**
    Priorities are touched only under a positive throttle; the work then
    runs with the throttled nice value and I/O priority, and afterwards the
    process is back where it started.  Without throttling the work runs
    with the starting values and nothing is changed.
  */
  lemma {:induction false} PrioritiesRestored(throttle: int, nice0: int, ioprio0: int)
    ensures var calls := MainCalls(throttle, nice0, ioprio0);
      && WorkIndex(calls) >= 0
      && InEffect(calls, nice0, ioprio0) == (nice0, ioprio0)
      && (throttle > 0 ==>
            InEffect(calls[..WorkIndex(calls)], nice0, ioprio0) == (10 + throttle, ThrottlePriorities(throttle).ioprio))
      && (throttle <= 0 ==> calls == [Work])
  {
    var calls := MainCalls(throttle, nice0, ioprio0);
    if throttle > 0 {
      var p := ThrottlePriorities(throttle);
      var head := [GetNice, GetIoprio, SetNice(p.nice), SetIoprio(p.ioprio)];
      var tail := [Work, SetNice(nice0), SetIoprio(ioprio0)];
      assert calls == head + tail && calls[..4] == head;
      assert WorkIndex(calls) == 4 by {
        WorkIndexAfter(head, tail);
      }
      assert InEffect(head, nice0, ioprio0) == (p.nice, p.ioprio) by {
        SetBoth(p.nice, p.ioprio, nice0, ioprio0);
      }
      assert InEffect(calls, nice0, ioprio0) == (nice0, ioprio0) by {
        InEffectAppend(head, tail, nice0, ioprio0);
        WorkThenRestore(nice0, ioprio0, p.nice, p.ioprio);
      }
    } else {
      assert calls[1..] == [];
    }
  }

  /** Reading both priorities and then setting them leaves the set values in effect. */
  lemma SetBoth(n: int, io: int, nice: int, ioprio: int)
    ensures InEffect([GetNice, GetIoprio, SetNice(n), SetIoprio(io)], nice, ioprio) == (n, io)
  {
    var h := [GetNice, GetIoprio, SetNice(n), SetIoprio(io)];
    var h3 := [SetIoprio(io)];
    var h2 := [SetNice(n)] + h3;
    var h1 := [GetIoprio] + h2;
    assert h[1..] == h1 && h1[1..] == h2 && h2[1..] == h3 && h3[1..] == [];
    assert InEffect(h3, n, ioprio) == (n, io);
    assert InEffect(h2, nice, ioprio) == (n, io);
  }

  /** The work followed by setting both priorities back leaves the restored values in effect. */
  lemma WorkThenRestore(nice0: int, ioprio0: int, nice: int, ioprio: int)
    ensures InEffect([Work, SetNice(nice0), SetIoprio(ioprio0)], nice, ioprio) == (nice0, ioprio0)
  {
    var t := [Work, SetNice(nice0), SetIoprio(ioprio0)];
    var t2 := [SetIoprio(ioprio0)];
    var t1 := [SetNice(nice0)] + t2;
    assert t[1..] == t1 && t1[1..] == t2 && t2[1..] == [];
    assert InEffect(t2, nice0, ioprio) == (nice0, ioprio0);
    assert InEffect(t1, nice, ioprio) == (nice0, ioprio0);
  }
}

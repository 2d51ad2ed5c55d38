/** Small helpers shared by every model in this project. */
module Wrappers {
  datatype Option<+T> = None | Some(value: T)
}

/**
  Integer semantics of the C and Rust code being modelled.  Dafny's `/` and `%`
  are Euclidean; C's truncate toward zero, which matters whenever an operand
  can be negative (`off_t`, `long long`).
*/
module CInt {
  /** 2^64: the modulus of Rust's `u64` and C's `unsigned long long`. */
  const U64_MODULUS: int := 0x1_0000_0000_0000_0000

  predicate IsU64(x: int) { 0 <= x < U64_MODULUS }

  /** C's `a / b` for a positive divisor: the quotient is truncated toward zero. */
  function Div(a: int, b: int): (q: int)
    requires b > 0
    ensures a >= 0 ==> 0 <= q && q * b <= a < q * b + b
    ensures a < 0 ==> q <= 0 && q * b - b < a <= q * b
  {
    if a >= 0 then a / b else -((-a) / b)
  }

  /** C's `a % b` for a positive divisor: the remainder takes the sign of `a`. */
  function Mod(a: int, b: int): (r: int)
    requires b > 0
    ensures a == Div(a, b) * b + r
    ensures a >= 0 ==> 0 <= r < b
    ensures a < 0 ==> -b < r <= 0
  {
    a - Div(a, b) * b
  }

  /** `roundup(x, a)`: the least multiple of `a` that is at least `x`, for `x >= 0`. */
  function RoundUp(x: nat, a: nat): (r: nat)
    requires a > 0
    ensures r % a == 0 && x <= r < x + a
  {
    var q := (x + a - 1) / a;
    assert x + a - 1 == q * a + (x + a - 1) % a;
    MultipleMod(q, a);
    q * a
  }

  lemma MultipleMod(q: nat, a: nat)
    requires a > 0
    ensures (q * a) % a == 0
  {
    var r := (q * a) % a;
    var d := (q * a) / a;
    assert q * a == d * a + r && 0 <= r < a;
    var k := q - d;
    assert k * a == q * a - d * a;
    assert k * a == r;
  }

  /** Division is determined by a quotient and a remainder in range. */
  lemma DivUnique(x: int, d: int, q: int, r: int)
    requires d > 0 && x == q * d + r && 0 <= r < d
    ensures x / d == q && x % d == r
  {
    var q0, r0 := x / d, x % d;
    assert x == q0 * d + r0 && 0 <= r0 < d;
    assert (q0 - q) * d == r - r0;
    if q0 > q {
      MulAtLeast(q0 - q, d);
    } else if q0 < q {
      MulAtLeast(q - q0, d);
    }
  }

  lemma MulAtLeast(k: int, d: int)
    requires k >= 1 && d > 0
    ensures k * d >= d
  {
  }

  function Min(a: int, b: int): (m: int)
    ensures m <= a && m <= b && (m == a || m == b)
  {
    if a <= b then a else b
  }
}

/**
  Resource lifetimes as a trace of acquire/release events.  A trace is
  well formed when nothing is released that is not held and nothing is
  acquired twice while held; a balanced trace also ends holding nothing,
  which is "every allocation is freed exactly once".
*/
module Resources {
  import opened Wrappers

  datatype Resource =
    | IoContext            // io_setup / io_uring_queue_init
    | Buffer(index: nat)   // one aligned buffer of a pool
    | Mapping              // an mmap'ed region

  datatype Event = Acquire(r: Resource) | Release(r: Resource)

  function Step(held: Option<set<Resource>>, e: Event): Option<set<Resource>>
  {
    match held
    case None => None
    case Some(live) =>
      match e
      case Acquire(r) => if r in live then None else Some(live + {r})
      case Release(r) => if r in live then Some(live - {r}) else None
  }

  /** The set of resources held after the trace, or None if the trace misuses one. */
  function Replay(t: seq<Event>): Option<set<Resource>>
  {
    if t == [] then Some({}) else Step(Replay(t[..|t| - 1]), t[|t| - 1])
  }

  predicate WellFormed(t: seq<Event>) { Replay(t).Some? }

  function Live(t: seq<Event>): set<Resource>
    requires WellFormed(t)
  {
    Replay(t).value
  }

  /** Every acquired resource was released exactly once, and nothing else was released. */
  predicate Balanced(t: seq<Event>) { WellFormed(t) && Live(t) == {} }

  function Count(t: seq<Event>, e: Event): nat
  {
    if t == [] then 0 else Count(t[..|t| - 1], e) + (if t[|t| - 1] == e then 1 else 0)
  }

  lemma ReplayAppend(t: seq<Event>, e: Event)
    ensures Replay(t + [e]) == Step(Replay(t), e)
  {
    assert (t + [e])[..|t + [e]| - 1] == t;
  }

  lemma CountAppend(t: seq<Event>, e: Event, x: Event)
    ensures Count(t + [e], x) == Count(t, x) + (if e == x then 1 else 0)
  {
    assert (t + [e])[..|t + [e]| - 1] == t;
  }

  /**
    In a well-formed trace each resource was acquired exactly as often as it
    was released, plus one if it is still held: a balanced trace frees every
    allocation exactly once.
  */
  lemma {:induction false} WellFormedCounts(t: seq<Event>, r: Resource)
    requires WellFormed(t)
    ensures Count(t, Acquire(r)) == Count(t, Release(r)) + (if r in Live(t) then 1 else 0)
  {
    if t != [] {
      var p := t[..|t| - 1];
      assert t == p + [t[|t| - 1]];
      ReplayAppend(p, t[|t| - 1]);
      assert WellFormed(p);
      WellFormedCounts(p, r);
      CountAppend(p, t[|t| - 1], Acquire(r));
      CountAppend(p, t[|t| - 1], Release(r));
    }
  }

  /** Acquiring buffers lo..hi-1 in index order. */
  function AcquireBuffers(lo: nat, hi: nat): (t: seq<Event>)
    ensures |t| == if hi <= lo then 0 else hi - lo
    decreases hi
  {
    if hi <= lo then [] else AcquireBuffers(lo, hi - 1) + [Acquire(Buffer(hi - 1))]
  }

  /** Releasing buffers lo..hi-1 in index order. */
  function ReleaseBuffers(lo: nat, hi: nat): (t: seq<Event>)
    ensures |t| == if hi <= lo then 0 else hi - lo
    decreases hi
  {
    if hi <= lo then [] else ReleaseBuffers(lo, hi - 1) + [Release(Buffer(hi - 1))]
  }

  function BufferSet(lo: nat, hi: nat): set<Resource>
  {
    set i: nat | lo <= i < hi :: Buffer(i)
  }

  /** Acquiring a run of fresh buffers adds exactly that run to what is held. */
  lemma {:induction false} ReplayAcquireBuffers(t: seq<Event>, lo: nat, hi: nat)
    requires WellFormed(t) && lo <= hi
    requires forall i: nat :: lo <= i < hi ==> Buffer(i) !in Live(t)
    ensures WellFormed(t + AcquireBuffers(lo, hi))
    ensures Live(t + AcquireBuffers(lo, hi)) == Live(t) + BufferSet(lo, hi)
    decreases hi
  {
    if hi > lo {
      ReplayAcquireBuffers(t, lo, hi - 1);
      assert t + AcquireBuffers(lo, hi) == (t + AcquireBuffers(lo, hi - 1)) + [Acquire(Buffer(hi - 1))];
      ReplayAppend(t + AcquireBuffers(lo, hi - 1), Acquire(Buffer(hi - 1)));
      assert Buffer(hi - 1) !in BufferSet(lo, hi - 1);
      assert BufferSet(lo, hi) == BufferSet(lo, hi - 1) + {Buffer(hi - 1)};
    } else {
      assert t + AcquireBuffers(lo, hi) == t;
      assert BufferSet(lo, hi) == {};
    }
  }

  /** Releasing a run of held buffers removes exactly that run from what is held. */
  lemma {:induction false} ReplayReleaseBuffers(t: seq<Event>, lo: nat, hi: nat)
    requires WellFormed(t) && lo <= hi
    requires BufferSet(lo, hi) <= Live(t)
    ensures WellFormed(t + ReleaseBuffers(lo, hi))
    ensures Live(t + ReleaseBuffers(lo, hi)) == Live(t) - BufferSet(lo, hi)
    decreases hi
  {
    if hi > lo {
      assert BufferSet(lo, hi - 1) <= BufferSet(lo, hi);
      ReplayReleaseBuffers(t, lo, hi - 1);
      assert t + ReleaseBuffers(lo, hi) == (t + ReleaseBuffers(lo, hi - 1)) + [Release(Buffer(hi - 1))];
      ReplayAppend(t + ReleaseBuffers(lo, hi - 1), Release(Buffer(hi - 1)));
      assert Buffer(hi - 1) in BufferSet(lo, hi);
      assert Buffer(hi - 1) !in BufferSet(lo, hi - 1);
      assert BufferSet(lo, hi) == BufferSet(lo, hi - 1) + {Buffer(hi - 1)};
    } else {
      assert t + ReleaseBuffers(lo, hi) == t;
      assert BufferSet(lo, hi) == {};
    }
  }

  /** A pool of n buffers allocated and then freed in index order leaves nothing held. */
  lemma PoolBalanced(n: nat)
    ensures Balanced(AcquireBuffers(0, n) + ReleaseBuffers(0, n))
  {
    assert WellFormed([]) && Live([]) == {};
    ReplayAcquireBuffers([], 0, n);
    assert [] + AcquireBuffers(0, n) == AcquireBuffers(0, n);
    ReplayReleaseBuffers(AcquireBuffers(0, n), 0, n);
  }

  /** After a balanced trace, a trace replays as it would from nothing. */
  lemma {:induction false} ReplayAfterBalanced(a: seq<Event>, b: seq<Event>)
    requires Balanced(a)
    ensures Replay(a + b) == Replay(b)
    decreases |b|
  {
    if b == [] {
      assert a + b == a;
    } else {
      var front := b[..|b| - 1];
      ReplayAfterBalanced(a, front);
      assert (a + b)[..|a + b| - 1] == a + front;
      assert (a + b)[|a + b| - 1] == b[|b| - 1];
    }
  }

  /** Two balanced traces one after the other are balanced. */
  lemma BalancedConcat(a: seq<Event>, b: seq<Event>)
    requires Balanced(a) && Balanced(b)
    ensures Balanced(a + b)
  {
    ReplayAfterBalanced(a, b);
  }
}

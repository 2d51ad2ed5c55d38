/**
  Extents of disk-warmer (disk-warmer/main.c): the growable extent array,
  the comparator used to sort it by physical offset, and the in-place merge
  of physically adjacent extents.
*/
module Extents {
  /** `struct extent`: a physical byte range of the device. */
  datatype Extent = Extent(physicalOffset: int, length: int)

  /** The first capacity `extent_list_append` allocates. */
  const INITIAL_CAPACITY: nat := 16

  /** `EBS_OPTIMAL_MERGE_SIZE_MB`, and the cap main passes to the merge, in bytes. */
  const EBS_OPTIMAL_MERGE_SIZE_MB: nat := 16
  const EBS_MERGE_CAP_BYTES: nat := EBS_OPTIMAL_MERGE_SIZE_MB * 1024 * 1024

  function End(e: Extent): int { e.physicalOffset + e.length }

  function TotalLength(s: seq<Extent>): int
  {
    if s == [] then 0 else s[0].length + TotalLength(s[1..])
  }

  lemma {:induction false} TotalLengthAppend(a: seq<Extent>, b: seq<Extent>)
    ensures TotalLength(a + b) == TotalLength(a) + TotalLength(b)
  {
    if a != [] {
      assert (a + b)[1..] == a[1..] + b;
      TotalLengthAppend(a[1..], b);
    } else {
      assert a + b == b;
    }
  }

  /** Total length of `s[i..j]`. */
  function RangeLength(s: seq<Extent>, i: nat, j: nat): int
    requires i <= j <= |s|
    decreases j - i
  {
    if i == j then 0 else s[i].length + RangeLength(s, i + 1, j)
  }

  lemma {:induction false} RangeLengthSplit(s: seq<Extent>, i: nat, j: nat, k: nat)
    requires i <= j <= k <= |s|
    ensures RangeLength(s, i, k) == RangeLength(s, i, j) + RangeLength(s, j, k)
    decreases j - i
  {
    if i < j {
      RangeLengthSplit(s, i + 1, j, k);
    }
  }

  lemma {:induction false} RangeLengthIsTotal(s: seq<Extent>, i: nat)
    requires i <= |s|
    ensures RangeLength(s, i, |s|) == TotalLength(s[i..])
    decreases |s| - i
  {
    if i < |s| {
      RangeLengthIsTotal(s, i + 1);
      assert s[i..][1..] == s[i + 1..];
    }
  }

  // ---------------------------------------------------------------------
  // extent_compare
  // ---------------------------------------------------------------------

  /** `extent_compare`: -1, 0 or 1 by physical offset alone. */
  function Compare(a: Extent, b: Extent): (c: int)
    ensures c == -1 || c == 0 || c == 1
    ensures c < 0 <==> a.physicalOffset < b.physicalOffset
    ensures c > 0 <==> a.physicalOffset > b.physicalOffset
    ensures c == 0 <==> a.physicalOffset == b.physicalOffset
  {
    if a.physicalOffset < b.physicalOffset then -1
    else if a.physicalOffset > b.physicalOffset then 1
    else 0
  }

  /** The comparator is antisymmetric, transitive and total: a valid qsort order. */
  lemma CompareIsTotalPreorder(a: Extent, b: Extent, c: Extent)
    ensures Compare(a, b) == -Compare(b, a)
    ensures Compare(a, b) <= 0 && Compare(b, c) <= 0 ==> Compare(a, c) <= 0
    ensures Compare(a, b) <= 0 || Compare(b, a) <= 0
    ensures Compare(a, a) == 0
  {
  }

  /** What qsort with `extent_compare` produces: nondecreasing physical offsets. */
  predicate SortedByOffset(s: seq<Extent>)
  {
    forall i, j :: 0 <= i < j < |s| ==> Compare(s[i], s[j]) <= 0
  }

  // ---------------------------------------------------------------------
  // extent_list_merge_adjacent, as functions over indices of the list
  // ---------------------------------------------------------------------

  /** The merge loop's test: `next` starts where `cur` ends and the cap allows the sum. */
  predicate Mergeable(cur: Extent, next: Extent, maxMergeSize: int)
  {
    End(cur) == next.physicalOffset &&
    !(maxMergeSize > 0 && cur.length + next.length > maxMergeSize)
  }

  /** Each of `s[i..j]` starts where the previous one (the first: `end`) ends. */
  predicate Contiguous(s: seq<Extent>, end: int, i: nat, j: nat)
    requires i <= j <= |s|
    decreases j - i
  {
    i == j || (s[i].physicalOffset == end && Contiguous(s, End(s[i]), i + 1, j))
  }

  /**
    The inner loop of the merge: `cur` absorbs `s[j]`, `s[j + 1]`, ... while
    they are mergeable; the result is the merged extent and the index of the
    first extent not absorbed.
  */
  function Absorb(s: seq<Extent>, cur: Extent, j: nat, maxMergeSize: int): (r: (Extent, nat))
    requires j <= |s|
    ensures j <= r.1 <= |s|
    ensures r.0.physicalOffset == cur.physicalOffset
    decreases |s| - j
  {
    if j < |s| && Mergeable(cur, s[j], maxMergeSize) then
      Absorb(s, Extent(cur.physicalOffset, cur.length + s[j].length), j + 1, maxMergeSize)
    else
      (cur, j)
  }

  /**
    What one absorption achieves: the merged extent covers exactly `cur` and
    the absorbed extents, which form a physically contiguous run; a merged
    extent respects a positive cap; absorption stops only at the end of the
    list or at an extent that cannot be merged.
  */
  lemma {:induction false} AbsorbCoversRun(s: seq<Extent>, cur: Extent, j: nat, maxMergeSize: int)
    requires j <= |s|
    ensures var r := Absorb(s, cur, j, maxMergeSize);
      && r.0.length == cur.length + RangeLength(s, j, r.1)
      && Contiguous(s, End(cur), j, r.1)
      && (maxMergeSize > 0 && r.1 > j ==> r.0.length <= maxMergeSize)
      && (r.1 < |s| ==> !Mergeable(r.0, s[r.1], maxMergeSize))
    decreases |s| - j
  {
    if j < |s| && Mergeable(cur, s[j], maxMergeSize) {
      AbsorbCoversRun(s, Extent(cur.physicalOffset, cur.length + s[j].length), j + 1, maxMergeSize);
    }
  }

  /** The merged list built from `s[i..]`. */
  function MergeFrom(s: seq<Extent>, i: nat, maxMergeSize: int): (r: seq<Extent>)
    requires i <= |s|
    ensures |r| <= |s| - i
    ensures i < |s| ==> r != [] && r[0].physicalOffset == s[i].physicalOffset
    decreases |s| - i
  {
    if i == |s| then []
    else
      var a := Absorb(s, s[i], i + 1, maxMergeSize);
      [a.0] + MergeFrom(s, a.1, maxMergeSize)
  }

  /** The result of `extent_list_merge_adjacent` on the list contents `s`. */
  function Merge(s: seq<Extent>, maxMergeSize: int): seq<Extent>
  {
    MergeFrom(s, 0, maxMergeSize)
  }

  /** Merging never changes the total number of bytes covered. */
  lemma {:induction false} MergePreservesTotalLength(s: seq<Extent>, i: nat, maxMergeSize: int)
    requires i <= |s|
    ensures TotalLength(MergeFrom(s, i, maxMergeSize)) == RangeLength(s, i, |s|)
    decreases |s| - i
  {
    if i < |s| {
      var a := Absorb(s, s[i], i + 1, maxMergeSize);
      AbsorbCoversRun(s, s[i], i + 1, maxMergeSize);
      MergePreservesTotalLength(s, a.1, maxMergeSize);
      TotalLengthAppend([a.0], MergeFrom(s, a.1, maxMergeSize));
      RangeLengthSplit(s, i + 1, a.1, |s|);
    }
  }

  /** The merged list has the same total length as the list. */
  lemma MergeTotalLength(s: seq<Extent>, maxMergeSize: int)
    ensures |Merge(s, maxMergeSize)| <= |s|
    ensures TotalLength(Merge(s, maxMergeSize)) == TotalLength(s)
  {
    MergePreservesTotalLength(s, 0, maxMergeSize);
    RangeLengthIsTotal(s, 0);
  }

  /** With a positive cap, an output extent longer than the cap is an input extent left alone. */
  lemma {:induction false} MergeRespectsCap(s: seq<Extent>, i: nat, maxMergeSize: int)
    requires i <= |s| && maxMergeSize > 0
    ensures forall e :: e in MergeFrom(s, i, maxMergeSize) && e.length > maxMergeSize ==> e in s[i..]
    decreases |s| - i
  {
    if i < |s| {
      var a := Absorb(s, s[i], i + 1, maxMergeSize);
      AbsorbCoversRun(s, s[i], i + 1, maxMergeSize);
      MergeRespectsCap(s, a.1, maxMergeSize);
      if a.1 == i + 1 {
        assert a.0 == s[i];
      }
      forall e | e in MergeFrom(s, a.1, maxMergeSize) && e.length > maxMergeSize
        ensures e in s[i..]
      {
        var k :| 0 <= k < |s[a.1..]| && s[a.1..][k] == e;
        assert s[i..][a.1 - i + k] == e;
      }
      assert s[i..][0] == s[i];
    }
  }

  lemma ConsSorted(e: Extent, m: seq<Extent>)
    requires SortedByOffset(m)
    requires m != [] ==> e.physicalOffset <= m[0].physicalOffset
    ensures SortedByOffset([e] + m)
  {
    var r := [e] + m;
    forall i, j | 0 <= i < j < |r| ensures Compare(r[i], r[j]) <= 0 {
      assert r[j] == m[j - 1];
      if i > 0 {
        assert r[i] == m[i - 1];
      } else if j > 1 {
        assert Compare(m[0], m[j - 1]) <= 0;
      }
    }
  }

  /** Merging a list sorted by offset keeps it sorted by offset. */
  lemma {:induction false} MergeKeepsSorted(s: seq<Extent>, i: nat, maxMergeSize: int)
    requires i <= |s| && SortedByOffset(s)
    ensures SortedByOffset(MergeFrom(s, i, maxMergeSize))
    decreases |s| - i
  {
    if i < |s| {
      var a := Absorb(s, s[i], i + 1, maxMergeSize);
      MergeKeepsSorted(s, a.1, maxMergeSize);
      if a.1 < |s| {
        assert Compare(s[i], s[a.1]) <= 0;
      }
      ConsSorted(a.0, MergeFrom(s, a.1, maxMergeSize));
    }
  }

  /** Lists of at most one extent come back unchanged, as the early return says. */
  lemma MergeShort(s: seq<Extent>, maxMergeSize: int)
    requires |s| <= 1
    ensures Merge(s, maxMergeSize) == s
  {
  }

  /** The outer loop's invariant is kept: one more merged extent is written. */
  lemma MergeProgress(s: seq<Extent>, done: seq<Extent>, i: nat, merged: Extent, next: nat,
                      maxMergeSize: int)
    requires i < |s| && Absorb(s, s[i], i + 1, maxMergeSize) == (merged, next)
    requires Merge(s, maxMergeSize) == done + MergeFrom(s, i, maxMergeSize)
    ensures Merge(s, maxMergeSize) == (done + [merged]) + MergeFrom(s, next, maxMergeSize)
  {
    assert MergeFrom(s, i, maxMergeSize) == [merged] + MergeFrom(s, next, maxMergeSize);
  }

  /**
    The inner loop of `extent_list_merge_adjacent`: `a[write]` (a copy of
    `a[read]`) absorbs `a[read + 1]`, `a[read + 2]`, ... while they are
    mergeable; returns the index of the last extent absorbed (or `read`).
  */
  method AbsorbInPlace(a: array<Extent>, write: nat, read: nat, n: nat, maxMergeSize: int,
                       ghost s: seq<Extent>) returns (last: nat)
    requires write <= read < n <= a.Length && |s| == n
    requires forall i :: read <= i < n ==> a[i] == s[i]
    requires a[write] == s[read]
    modifies a
    ensures read <= last < n
    ensures forall i :: 0 <= i < a.Length && i != write ==> a[i] == old(a[i])
    ensures Absorb(s, s[read], read + 1, maxMergeSize) == (a[write], last + 1)
  {
    last := read;
    while last + 1 < n
      invariant read <= last < n
      invariant forall i :: 0 <= i < a.Length && i != write ==> a[i] == old(a[i])
      invariant Absorb(s, s[read], read + 1, maxMergeSize) == Absorb(s, a[write], last + 1, maxMergeSize)
    {
      var current := a[write];
      var next := a[last + 1];
      assert next == s[last + 1];
      if current.physicalOffset + current.length == next.physicalOffset {
        if maxMergeSize > 0 && current.length + next.length > maxMergeSize {
          break;
        }
        a[write] := Extent(current.physicalOffset, current.length + next.length);
        last := last + 1;
      } else {
        break;
      }
    }
  }

  /**
    The body of `extent_list_merge_adjacent` on the first `n` elements of `a`:
    copies `a[read]` to `a[write]`, lets it absorb its mergeable successors
    and advances both indices; returns the new count.
  */
  method MergeInPlace(a: array<Extent>, n: nat, maxMergeSize: int) returns (write: nat)
    requires n <= a.Length
    modifies a
    ensures write <= n
    ensures a[..write] == Merge(old(a[..n]), maxMergeSize)
  {
    ghost var s := a[..n];
    write := 0;
    var read := 0;
    while read < n
      invariant 0 <= write <= read <= n
      invariant forall i :: read <= i < n ==> a[i] == s[i]
      invariant Merge(s, maxMergeSize) == a[..write] + MergeFrom(s, read, maxMergeSize)
    {
      write, read := MergeRun(a, write, read, n, maxMergeSize, s);
    }
  }

  /**
    One pass of the outer loop: `a[write]` takes `a[read]` and absorbs the
    run of mergeable extents after it, and both indices move past the run.
  */
  method MergeRun(a: array<Extent>, write0: nat, read0: nat, n: nat, maxMergeSize: int, ghost s: seq<Extent>)
    returns (write: nat, read: nat)
    requires write0 <= read0 < n <= a.Length && |s| == n
    requires forall i :: read0 <= i < n ==> a[i] == s[i]
    requires Merge(s, maxMergeSize) == a[..write0] + MergeFrom(s, read0, maxMergeSize)
    modifies a
    ensures write == write0 + 1 && read0 < read && write <= read <= n
    ensures forall i :: read <= i < n ==> a[i] == s[i]
    ensures Merge(s, maxMergeSize) == a[..write] + MergeFrom(s, read, maxMergeSize)
  {
    ghost var done := a[..write0];
    a[write0] := a[read0];
    assert a[..write0] == done;
    label copied:
    var last := AbsorbInPlace(a, write0, read0, n, maxMergeSize, s);
    ghost var merged := a[write0];
    ghost var prefix := a[..write0 + 1];
    assert prefix == done + [merged] by {
      assert forall i :: 0 <= i < write0 ==> a[i] == old@copied(a[i]);
    }
    assert forall i :: last + 1 <= i < n ==> a[i] == s[i] by {
      assert forall i :: last + 1 <= i < n ==> a[i] == old@copied(a[i]) == old(a[i]);
    }
    MergeProgress(s, done, read0, merged, last + 1, maxMergeSize);
    write, read := write0 + 1, last + 1;
  }

  class ExtentList {
    var extents: array?<Extent>
    var count: nat
    var capacity: nat

    ghost predicate Valid()
      reads this
    {
      count <= capacity &&
      (extents == null ==> capacity == 0) &&
      (extents != null ==> extents.Length == capacity)
    }

    ghost function Contents(): seq<Extent>
      reads this, extents
      requires Valid()
    {
      if extents == null then [] else extents[..count]
    }

    /** `extent_list_init`. */
    constructor ()
      ensures Valid() && extents == null && count == 0 && capacity == 0
      ensures Contents() == []
    {
      extents := null;
      count := 0;
      capacity := 0;
    }

    /**
      `extent_list_append`: when full, grows to 16 or twice the capacity;
      `reallocOk` is the outcome of `realloc`, and on failure nothing changes.
    */
    method Append(physicalOffset: int, length: int, reallocOk: bool)
      requires Valid()
      modifies this, extents
      ensures Valid()
      ensures old(count) < old(capacity) || reallocOk ==>
        Contents() == old(Contents()) + [Extent(physicalOffset, length)] && count == old(count) + 1
      ensures old(count) >= old(capacity) && !reallocOk ==>
        extents == old(extents) && count == old(count) && capacity == old(capacity) &&
        Contents() == old(Contents())
      ensures capacity ==
        if old(count) < old(capacity) || !reallocOk then old(capacity)
        else if old(capacity) == 0 then INITIAL_CAPACITY
        else 2 * old(capacity)
      ensures old(count) < old(capacity) ==> extents == old(extents)
      ensures old(count) >= old(capacity) && reallocOk ==> fresh(extents)
    {
      if count >= capacity {
        var newCapacity := if capacity != 0 then capacity * 2 else INITIAL_CAPACITY;
        if !reallocOk {
          return;
        }
        var grown := new Extent[newCapacity];
        var old_ := extents;
        forall i | 0 <= i < count {
          grown[i] := old_[i];
        }
        extents := grown;
        capacity := newCapacity;
      }
      extents[count] := Extent(physicalOffset, length);
      count := count + 1;
    }

    /** `extent_list_free`. */
    method Free()
      modifies this
      ensures Valid() && extents == null && count == 0 && capacity == 0
      ensures Contents() == []
    {
      extents := null;
      count := 0;
      capacity := 0;
    }

    /**
      `extent_list_merge_adjacent(list, maxMergeSize)`: lists of at most one
      extent are returned as they are; otherwise the array is compacted in
      place and the count updated.
    */
    method MergeAdjacent(maxMergeSize: int) returns (newCount: nat)
      requires Valid()
      modifies this, extents
      ensures Valid() && extents == old(extents) && capacity == old(capacity)
      ensures newCount == count <= old(count)
      ensures old(count) <= 1 ==> count == old(count)
      ensures Contents() == Merge(old(Contents()), maxMergeSize)
    {
      if count <= 1 {
        MergeShort(Contents(), maxMergeSize);
        return count;
      }
      count := MergeInPlace(extents, count, maxMergeSize);
      newCount := count;
    }
  }
}

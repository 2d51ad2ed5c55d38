/**
  The slot tables of page-cache-warmer's readers
  (page-cache-warmer/io_operations.c): a fixed table of `queue_depth` slots,
  each free (`fd == -1`) or holding one open file whose reads are in flight.
  This module holds what both readers share: finding the lowest free slot
  and counting the occupied ones.
*/
module PageCacheSlots {

  /** Why a reader's main loop stopped; `Hung` is a wait that can never return. */
  datatype Stop = Done | SubmitFailed | WaitFailed | Hung | OutOfRounds

  /** The descriptor value that marks a free slot. */
  const FREE: int := -1

  /** The index of the lowest free slot, or -1 when every slot is occupied. */
  function FirstFree(fds: seq<int>): (q: int)
    ensures -1 <= q < |fds|
    ensures q == -1 <==> forall i :: 0 <= i < |fds| ==> fds[i] != FREE
    ensures q != -1 ==> fds[q] == FREE && forall i :: 0 <= i < q ==> fds[i] != FREE
  {
    if fds == [] then -1
    else if fds[0] == FREE then 0
    else
      var r := FirstFree(fds[1..]);
      if r == -1 then -1 else r + 1
  }

  /** The scan over the table for the first `fd == -1`. */
  method FindFreeSlot(fds: array<int>) returns (q: int)
    ensures q == FirstFree(fds[..])
  {
    q := -1;
    var i := 0;
    while i < fds.Length
      invariant 0 <= i <= fds.Length
      invariant forall j :: 0 <= j < i ==> fds[j] != FREE
    {
      if fds[i] == FREE {
        q := i;
        FirstFreeAt(fds[..], i);
        return;
      }
      i := i + 1;
    }
  }

  lemma FirstFreeAt(fds: seq<int>, i: nat)
    requires i < |fds| && fds[i] == FREE && forall j :: 0 <= j < i ==> fds[j] != FREE
    ensures FirstFree(fds) == i
  {
  }

  /** The indices of the occupied slots, in increasing order. */
  function Occupied(fds: seq<int>): (occ: seq<nat>)
    ensures |occ| <= |fds|
    ensures forall k :: 0 <= k < |occ| ==> occ[k] < |fds| && fds[occ[k]] != FREE
  {
    if fds == [] then []
    else Occupied(fds[..|fds| - 1]) + (if fds[|fds| - 1] != FREE then [|fds| - 1] else [])
  }

  /** Every occupied slot is listed. */
  lemma {:induction false} OccupiedListed(fds: seq<int>, i: nat)
    requires i < |fds| && fds[i] != FREE
    ensures i in Occupied(fds)
    decreases |fds|
  {
    if i < |fds| - 1 {
      OccupiedListed(fds[..|fds| - 1], i);
    }
  }

  /** The table is full exactly when every slot is listed as occupied. */
  lemma {:induction false} OccupiedFull(fds: seq<int>)
    ensures |Occupied(fds)| == |fds| <==> forall i :: 0 <= i < |fds| ==> fds[i] != FREE
    decreases |fds|
  {
    if fds != [] {
      var init := fds[..|fds| - 1];
      OccupiedFull(init);
      if |Occupied(fds)| == |fds| {
        assert |Occupied(init)| == |init| && fds[|fds| - 1] != FREE;
        forall i | 0 <= i < |fds|
          ensures fds[i] != FREE
        {
          if i < |init| {
            assert init[i] == fds[i];
          }
        }
      }
    }
  }

  /** A table with nothing occupied is all free. */
  lemma {:induction false} OccupiedNone(fds: seq<int>)
    requires |Occupied(fds)| == 0
    ensures forall i :: 0 <= i < |fds| ==> fds[i] == FREE
  {
    forall i | 0 <= i < |fds|
      ensures fds[i] == FREE
    {
      if fds[i] != FREE {
        OccupiedListed(fds, i);
      }
    }
  }

  /**
    Storing `v` in slot `q` moves the count of occupied slots by one when the
    slot changes between free and occupied, and leaves it otherwise.
  */
  lemma {:induction false} OccupiedUpdate(fds: seq<int>, q: nat, v: int)
    requires q < |fds|
    ensures |Occupied(fds[q := v])| ==
      |Occupied(fds)| - (if fds[q] != FREE then 1 else 0) + (if v != FREE then 1 else 0)
    decreases |fds|
  {
    var init := fds[..|fds| - 1];
    var updated := fds[q := v];
    if q < |fds| - 1 {
      assert updated[..|fds| - 1] == init[q := v];
      OccupiedUpdate(init, q, v);
    } else {
      assert updated[..|fds| - 1] == init;
    }
  }

  /** A table whose every slot is free has nothing occupied. */
  lemma {:induction false} AllFreeUnoccupied(fds: seq<int>)
    requires forall i :: 0 <= i < |fds| ==> fds[i] == FREE
    ensures |Occupied(fds)| == 0
    decreases |fds|
  {
    if fds != [] {
      AllFreeUnoccupied(fds[..|fds| - 1]);
    }
  }
}

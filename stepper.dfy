/**
 * The round-robin stepper that picks which rooms the culling engine re-checks on a tick: a head index that
 * wraps at the room count, and a flag that asks for one full sweep from index 0.
 */
module TimeSlicing {

  /** The index `Next(total)` hands out when the head is at `head`. */
  function NextIndex(head: int, total: int): int {
    if head >= total then 0 else head
  }

  /** The indices `count` successive `Next(total)` calls return, starting with the head at `head`. */
  function Visits(head: int, total: int, count: nat): (r: seq<int>)
    decreases count
    ensures |r| == count
  {
    if count == 0 then []
    else [NextIndex(head, total)] + Visits(NextIndex(head, total) + 1, total, count - 1)
  }

  /** `x` reduced once by `total`: `x % total` for `0 <= x < 2 * total`. */
  function Wrap(x: int, total: int): int {
    if x < total then x else x - total
  }

  /**
   * From a head at or above 0, within one round the `k`-th call returns `start + k` wrapped at `total`,
   * where `start` is the first index handed out.
   */
  lemma {:induction false} VisitsAt(head: int, total: int, count: nat, k: int)
    requires 0 <= head && 0 < total && count <= total && 0 <= k < count
    ensures Visits(head, total, count)[k] == Wrap(NextIndex(head, total) + k, total)
    decreases count
  {
    var start := NextIndex(head, total);
    if k > 0 {
      VisitsAt(start + 1, total, count - 1, k - 1);
    }
  }

  /**
   * One tick never re-checks a room twice: at most `total` calls of `Next(total)` return different
   * indices, each in `0 .. total - 1`.
   */
  lemma VisitsDistinct(head: int, total: int, count: nat)
    requires 0 <= head && 0 < total && count <= total
    ensures forall k :: 0 <= k < count ==> 0 <= Visits(head, total, count)[k] < total
    ensures forall i, j :: 0 <= i < j < count ==> Visits(head, total, count)[i] != Visits(head, total, count)[j]
  {
    var v := Visits(head, total, count);
    forall k | 0 <= k < count
      ensures 0 <= v[k] < total
    {
      VisitsAt(head, total, count, k);
    }
    forall i, j | 0 <= i < j < count
      ensures v[i] != v[j]
    {
      VisitsAt(head, total, count, i);
      VisitsAt(head, total, count, j);
    }
  }

  /** After `StartFullSweep` the head is 0, and the `total` calls of the sweep return 0, 1, ..., total - 1. */
  lemma FullSweepVisitsAll(total: nat)
    ensures Visits(0, total, total) == seq(total, i => i)
  {
    if total > 0 {
      forall k | 0 <= k < total
        ensures Visits(0, total, total)[k] == k
      {
        VisitsAt(0, total, total, k);
      }
    }
  }

  /** The head after `count` calls of `Next(total)`. */
  function HeadAfter(head: int, total: int, count: nat): int
    decreases count
  {
    if count == 0 then head else HeadAfter(NextIndex(head, total) + 1, total, count - 1)
  }

  /**
   * One more call of a run of `count - n` visits: it returns the next visit `v[n]`, which is new when the
   * visits are distinct, and the rest of the run starts from the head it leaves.
   */
  lemma VisitsAdvance(v: seq<int>, n: int, head: int, total: int)
    requires 0 <= n < |v| && v[n..] == Visits(head, total, |v| - n)
    requires forall a, b :: 0 <= a < b < |v| ==> v[a] != v[b]
    ensures v[n] == NextIndex(head, total)
    ensures v[n + 1..] == Visits(NextIndex(head, total) + 1, total, |v| - n - 1)
    ensures HeadAfter(head, total, |v| - n) == HeadAfter(NextIndex(head, total) + 1, total, |v| - n - 1)
    ensures v[..n + 1] == v[..n] + [v[n]] && v[n] !in v[..n]
  {
    assert v[n..][0] == v[n] && v[n..][1..] == v[n + 1..];
    assert v[..n + 1] == v[..n] + [v[n]];
    forall t | 0 <= t < n
      ensures v[..n][t] != v[n]
    {
      assert v[..n][t] == v[t];
    }
  }

  /** `TimeSliceStepper`. */
  class TimeSliceStepper {
    var fullSweep: bool
    var head: int

    /** The head never goes below 0: it starts at 0, is reset to 0 and only counts up. */
    ghost predicate Valid()
      reads this
    {
      head >= 0
    }

    constructor ()
      ensures Valid() && !fullSweep && head == 0
    {
      fullSweep := false;
      head := 0;
    }

    /** `EndTick`: the full-sweep request is cleared and nothing else changes. */
    method EndTick()
      modifies this
      ensures !fullSweep && head == old(head)
    {
      fullSweep := false;
    }

    /**
     * `GetIterations(total, checksPerFrame)`: none without rooms, every room while a full sweep is pending, and
     * otherwise `checksPerFrame` raised to 1 and capped at `total`.
     */
    function GetIterations(total: int, checksPerFrame: int): (r: int)
      reads this
      ensures total <= 0 ==> r == 0
      ensures total > 0 ==> 1 <= r <= total
      ensures total > 0 && fullSweep ==> r == total
      ensures total > 0 && !fullSweep ==>
                (checksPerFrame >= total ==> r == total) && (1 <= checksPerFrame <= total ==> r == checksPerFrame) &&
                (checksPerFrame < 1 ==> r == 1)
    {
      if total <= 0 then 0
      else if fullSweep then total
      else
        var c := if checksPerFrame < 1 then 1 else checksPerFrame;
        if c > total then total else c
    }

    /** `Next(total)`: the head, wrapped to 0 once it reaches `total`; the head moves one past it. */
    method Next(total: int) returns (idx: int)
      requires Valid()
      modifies this
      ensures Valid() && fullSweep == old(fullSweep)
      ensures idx == NextIndex(old(head), total) && head == idx + 1
      ensures total > 0 ==> 0 <= idx < total
    {
      if head >= total {
        head := 0;
      }
      idx := head;
      head := head + 1;
    }

    /** `StartFullSweep`: a full sweep is requested and starts from index 0. */
    method StartFullSweep()
      modifies this
      ensures Valid() && fullSweep && head == 0
    {
      fullSweep := true;
      head := 0;
    }
  }
}

/**
 * The loops of the channel engine that compute on values: the conflict-list builder, the degree orders,
 * the split of the rooms into the three zones around the player, and the three passes of dynamic mode.
 */
module Passes {
  import opened Geometry
  import opened Masks
  import opened Sorting
  import opened Coloring

  // ---------------------------------------------------------------------------------------------------
  // The conflict graph
  // ---------------------------------------------------------------------------------------------------

  /** How far the nested loop has filled room `i`'s list when the outer loop is at `a` and the inner at `b`. */
  function Reached(i: int, a: int, b: int, n: int): int {
    if i < a then n else if i == a then b else if i < b then a + 1 else a
  }

  /**
   * The nested loop of `BuildConflictGraph`: each pair `a < b` closer than `separation` is appended to
   * both lists. The result is the conflict lists, each in increasing order.
   */
  method BuildConflictLists(bounds: seq<Bounds>, separation: real) returns (conflicts: seq<seq<int>>)
    ensures conflicts == ConflictLists(bounds, separation)
  {
    var n := |bounds|;
    conflicts := seq(n, _ => []);
    FilledAtStart(bounds, separation);
    var a := 0;
    while a < n
      invariant 0 <= a <= n && FilledTo(bounds, separation, conflicts, a, a)
    {
      var b := a + 1;
      RowStarts(bounds, separation, conflicts, a);
      while b < n
        invariant a + 1 <= b <= n && FilledTo(bounds, separation, conflicts, a, b)
      {
        PairStep(bounds, separation, conflicts, a, b);
        if CloserThan(SqDistanceBoxes(bounds[a], bounds[b]), separation) {
          conflicts := conflicts[a := conflicts[a] + [b]];
          conflicts := conflicts[b := conflicts[b] + [a]];
        }
        b := b + 1;
      }
      RowEnds(bounds, separation, conflicts, a);
      a := a + 1;
    }
    FilledAtEnd(bounds, separation, conflicts);
  }

  /** Before the loops every list is empty, which is every room's list of neighbours below 0. */
  lemma FilledAtStart(bounds: seq<Bounds>, separation: real)
    ensures FilledTo(bounds, separation, seq(|bounds|, _ => []), 0, 0)
  {
  }

  /** Starting row `a`: its own list is already filled to `a + 1`, since a room is not its own neighbour. */
  lemma RowStarts(bounds: seq<Bounds>, separation: real, conflicts: seq<seq<int>>, a: int)
    requires 0 <= a < |bounds| && FilledTo(bounds, separation, conflicts, a, a)
    ensures FilledTo(bounds, separation, conflicts, a, a + 1)
  {
    assert NeighboursBelow(bounds, separation, a, a + 1) == NeighboursBelow(bounds, separation, a, a);
  }

  /** Ending row `a` leaves the lists as the start of row `a + 1` expects them. */
  lemma RowEnds(bounds: seq<Bounds>, separation: real, conflicts: seq<seq<int>>, a: int)
    requires 0 <= a < |bounds| && FilledTo(bounds, separation, conflicts, a, |bounds|)
    ensures FilledTo(bounds, separation, conflicts, a + 1, a + 1)
  {
  }

  /** At the end of the loops every list is complete. */
  lemma FilledAtEnd(bounds: seq<Bounds>, separation: real, conflicts: seq<seq<int>>)
    requires FilledTo(bounds, separation, conflicts, |bounds|, |bounds|)
    ensures conflicts == ConflictLists(bounds, separation)
  {
    assert forall i :: 0 <= i < |bounds| ==>
             ConflictLists(bounds, separation)[i] == NeighboursBelow(bounds, separation, i, |bounds|);
  }

  /** Every list holds its neighbours below the point `Reached` says the nested loop has got to. */
  ghost predicate FilledTo(bounds: seq<Bounds>, separation: real, conflicts: seq<seq<int>>, a: int, b: int) {
    var n := |bounds|;
    |conflicts| == n && 0 <= a <= b <= n &&
    forall i :: 0 <= i < n ==> conflicts[i] == NeighboursBelow(bounds, separation, i, Reached(i, a, b, n))
  }

  /** One pass of the inner loop: the pair `a < b`, when close, joins both lists. */
  lemma PairStep(bounds: seq<Bounds>, separation: real, conflicts: seq<seq<int>>, a: int, b: int)
    requires a < b < |bounds| && FilledTo(bounds, separation, conflicts, a, b)
    ensures Close(bounds, separation, a, b) ==>
              FilledTo(bounds, separation, conflicts[a := conflicts[a] + [b]][b := conflicts[b] + [a]], a, b + 1)
    ensures !Close(bounds, separation, a, b) ==> FilledTo(bounds, separation, conflicts, a, b + 1)
  {
    CloseSymmetric(bounds, separation, a, b);
  }

  // ---------------------------------------------------------------------------------------------------
  // Degree orders
  // ---------------------------------------------------------------------------------------------------

  /** The sort key of both degree orders: a room with more conflicts comes first. */
  function ByDegree(g: Graph): int -> real {
    i => if 0 <= i < |g.conflicts| then -(Degree(g, i) as real) else 0.0
  }

  /** Sorting rooms by `ByDegree` puts them in non-increasing order of degree. */
  lemma SortedByDegree(g: Graph, s: seq<int>, order: seq<int>)
    requires WellFormed(g) && forall k :: 0 <= k < |s| ==> 0 <= s[k] < |g.bounds|
    requires multiset(order) == multiset(s) && SortedBy(order, ByDegree(g))
    ensures forall k :: 0 <= k < |order| ==> order[k] in s
    ensures forall i, j :: 0 <= i < j < |order| ==> Degree(g, order[i]) >= Degree(g, order[j])
  {
    forall k | 0 <= k < |order|
      ensures order[k] in s
    {
      assert order[k] in multiset(order);
    }
    forall i, j | 0 <= i < j < |order|
      ensures Degree(g, order[i]) >= Degree(g, order[j])
    {
      assert ByDegree(g)(order[i]) <= ByDegree(g)(order[j]);
    }
  }

  /** `BuildOrderByDegree`: every room once, by non-increasing number of conflicts. */
  function OrderByDegree(g: Graph): (order: seq<int>)
    requires WellFormed(g)
    ensures DegreeOrder(g, order)
  {
    var order := SortBy(Range(|g.bounds|), ByDegree(g));
    SortedByDegree(g, Range(|g.bounds|), order);
    order
  }

  /** `inside.OrderByDescending(i => _conflicts[i].Count)`: the inside rooms by non-increasing degree. */
  function InsideOrder(g: Graph, inside: seq<int>): (order: seq<int>)
    requires WellFormed(g)
    requires forall k :: 0 <= k < |inside| ==> 0 <= inside[k] < |g.bounds|
    ensures multiset(order) == multiset(inside)
    ensures forall k :: 0 <= k < |order| ==> order[k] in inside
    ensures forall i, j :: 0 <= i < j < |order| ==> Degree(g, order[i]) >= Degree(g, order[j])
  {
    var order := SortBy(inside, ByDegree(g));
    SortedByDegree(g, inside, order);
    order
  }

  /**
   * `OrderByDescending` is stable: inside rooms of equal degree keep the increasing index order in which
   * the zone lists hold them.
   */
  lemma InsideOrderKeepsTies(g: Graph, inside: seq<int>)
    requires WellFormed(g)
    requires forall k :: 0 <= k < |inside| ==> 0 <= inside[k] < |g.bounds|
    requires Increasing(inside)
    ensures var order := InsideOrder(g, inside);
            forall i, j :: 0 <= i < j < |order| && Degree(g, order[i]) == Degree(g, order[j]) ==> order[i] < order[j]
  {
    var order := InsideOrder(g, inside);
    SortByKeepsTies(inside, ByDegree(g));
    forall i, j | 0 <= i < j < |order| && Degree(g, order[i]) == Degree(g, order[j])
      ensures order[i] < order[j]
    {
      assert ByDegree(g)(order[i]) == ByDegree(g)(order[j]);
    }
  }

  /** The first loop of `GlobalAssign`: starting from all 0, each room in `order` takes `ChooseMask` of its banned set. */
  method GreedyColouring(g: Graph, order: seq<int>) returns (held: seq<uint32>)
    requires WellFormed(g)
    requires forall k :: 0 <= k < |order| ==> 0 <= order[k] < |g.bounds|
    ensures held == Greedy(g, order)
  {
    held := seq(|g.bounds|, _ => 0);
    var oi := 0;
    while oi < |order|
      invariant 0 <= oi <= |order|
      invariant held == Greedy(g, order[..oi])
    {
      var idx := order[oi];
      assert order[..oi + 1][..oi] == order[..oi];
      assert Greedy(g, order[..oi + 1]) == GreedyStep(g, held, idx);
      var banned := Banned(g, idx, held);
      var chosen := ChooseMask(g.palette, banned, 0);
      if chosen != 0 {
        held := held[idx := chosen];
      }
      oi := oi + 1;
    }
    assert order[..|order|] == order;
  }

  // ---------------------------------------------------------------------------------------------------
  // Zones
  // ---------------------------------------------------------------------------------------------------

  datatype Zone = Inside | Border | Outside

  /** Inside within `radiusIn` of the player, border within `radiusOut`, outside beyond. */
  function ZoneOf(player: Vec3, box: Bounds, radiusIn: real, radiusOut: real): Zone {
    var sq := SqDistancePointBox(player, box);
    if WithinDistance(sq, radiusIn) then Inside
    else if WithinDistance(sq, radiusOut) then Border
    else Outside
  }

  /** The rooms below `n` in zone `z`, in increasing order. */
  function InZone(bounds: seq<Bounds>, player: Vec3, radiusIn: real, radiusOut: real, z: Zone, n: int): seq<int>
    requires 0 <= n <= |bounds|
  {
    if n == 0 then []
    else InZone(bounds, player, radiusIn, radiusOut, z, n - 1) +
         (if ZoneOf(player, bounds[n - 1], radiusIn, radiusOut) == z then [n - 1] else [])
  }

  lemma {:induction false} InZoneMembers(bounds: seq<Bounds>, player: Vec3, radiusIn: real, radiusOut: real,
                                         z: Zone, n: int)
    requires 0 <= n <= |bounds|
    ensures forall i :: i in InZone(bounds, player, radiusIn, radiusOut, z, n) <==>
                        0 <= i < n && ZoneOf(player, bounds[i], radiusIn, radiusOut) == z
    ensures forall k :: 0 <= k < |InZone(bounds, player, radiusIn, radiusOut, z, n)| ==>
                        0 <= InZone(bounds, player, radiusIn, radiusOut, z, n)[k] < n
    ensures Distinct(InZone(bounds, player, radiusIn, radiusOut, z, n))
    ensures Increasing(InZone(bounds, player, radiusIn, radiusOut, z, n))
  {
    if n > 0 {
      InZoneMembers(bounds, player, radiusIn, radiusOut, z, n - 1);
    }
  }

  /** The loop that sorts the rooms into the inside, border and outside lists. */
  method Partition(bounds: seq<Bounds>, player: Vec3, radiusIn: real, radiusOut: real)
    returns (inside: seq<int>, border: seq<int>, outside: seq<int>)
    ensures inside == InZone(bounds, player, radiusIn, radiusOut, Inside, |bounds|)
    ensures border == InZone(bounds, player, radiusIn, radiusOut, Border, |bounds|)
    ensures outside == InZone(bounds, player, radiusIn, radiusOut, Outside, |bounds|)
  {
    inside, border, outside := [], [], [];
    var i := 0;
    while i < |bounds|
      invariant 0 <= i <= |bounds|
      invariant inside == InZone(bounds, player, radiusIn, radiusOut, Inside, i)
      invariant border == InZone(bounds, player, radiusIn, radiusOut, Border, i)
      invariant outside == InZone(bounds, player, radiusIn, radiusOut, Outside, i)
    {
      var sq := SqDistancePointBox(player, bounds[i]);
      if WithinDistance(sq, radiusIn) {
        inside := inside + [i];
      } else if WithinDistance(sq, radiusOut) {
        border := border + [i];
      } else {
        outside := outside + [i];
      }
      i := i + 1;
    }
  }

  /** Every room lands in exactly one of the three lists. */
  lemma ZonesPartitionRooms(bounds: seq<Bounds>, player: Vec3, radiusIn: real, radiusOut: real, i: int)
    requires 0 <= i < |bounds|
    ensures var z := ZoneOf(player, bounds[i], radiusIn, radiusOut);
            (i in InZone(bounds, player, radiusIn, radiusOut, Inside, |bounds|) <==> z == Inside) &&
            (i in InZone(bounds, player, radiusIn, radiusOut, Border, |bounds|) <==> z == Border) &&
            (i in InZone(bounds, player, radiusIn, radiusOut, Outside, |bounds|) <==> z == Outside)
  {
    InZoneMembers(bounds, player, radiusIn, radiusOut, Inside, |bounds|);
    InZoneMembers(bounds, player, radiusIn, radiusOut, Border, |bounds|);
    InZoneMembers(bounds, player, radiusIn, radiusOut, Outside, |bounds|);
  }

  /** A larger radius reaches at least as far: a room within `radiusOut` of a room inside is never outside. */
  lemma InsideIsWithinRadiusOut(player: Vec3, box: Bounds, radiusIn: real, radiusOut: real)
    requires radiusIn <= radiusOut
    requires ZoneOf(player, box, radiusIn, radiusOut) != Outside
    ensures WithinDistance(SqDistancePointBox(player, box), radiusOut)
  {
  }

  // ---------------------------------------------------------------------------------------------------
  // The dynamic passes
  // ---------------------------------------------------------------------------------------------------

  /** Room indices in range. */
  ghost predicate Rooms(g: Graph, s: seq<int>) {
    forall k :: 0 <= k < |s| ==> 0 <= s[k] < |g.bounds|
  }

  /** The masks of the inside rooms that are palette masks: the pass's initial `usedInInside`. */
  function UsedBy(p: Palette, held: seq<uint32>, rooms: seq<int>): (r: set<uint32>)
    requires forall k :: 0 <= k < |rooms| ==> 0 <= rooms[k] < |held|
    ensures forall m :: m in r ==> IsAllowedMask(p, m)
  {
    set k | 0 <= k < |rooms| && held[rooms[k]] != 0 && IsAllowedMask(p, held[rooms[k]]) :: held[rooms[k]]
  }

  /**
   * One step of the inside pass: the mask room `idx` takes, or 0 when it keeps its own. The mask is not
   * held by any conflicting inside room and, when the clamped separation is positive, differs from the
   * room's own mask.
   */
  function InsideChoice(g: Graph, held: seq<uint32>, inside: seq<int>, used: set<uint32>, idx: int): (r: uint32)
    requires Fits(g, idx, held) && |held| <= IntMax
    requires idx in inside
    ensures r == 0 || IsAllowedMask(g.palette, r)
    ensures r != 0 ==> forall b :: b in g.conflicts[idx] && b in inside ==> r != held[b]
    ensures r != 0 && g.minSeparationUsed > 0.0 ==> r != held[idx]
  {
    var banned := BannedLocal(g, idx, held, inside);
    var prefer := PreferUnused(g.palette, banned, used);
    ChooseBest(g, idx, banned, prefer, held)
  }

  /** An inside room finds no mask exactly when every channel is banned for it locally. */
  lemma InsideChoiceFree(g: Graph, held: seq<uint32>, inside: seq<int>, used: set<uint32>, idx: int)
    requires Fits(g, idx, held) && |held| <= IntMax && idx in inside
    ensures InsideChoice(g, held, inside, used, idx) == 0 <==> AllBanned(g.palette, BannedLocal(g, idx, held, inside))
  {
  }

  /** The masks after an inside pass step, and the masks the inside rooms are known to use (`usedInInside`). */
  datatype InsideState = InsideState(held: seq<uint32>, used: set<uint32>)

  /**
   * The inside pass as a fold over the first `n` rooms of `order`: each room in turn takes its
   * `InsideChoice` under the masks and the used set left by the rooms before it, unless that choice is 0.
   */
  function InsideSteps(g: Graph, held0: seq<uint32>, inside: seq<int>, used0: set<uint32>, order: seq<int>, n: int)
    : (s: InsideState)
    requires WellFormed(g) && |held0| == |g.bounds| <= IntMax && Rooms(g, order)
    requires forall k :: 0 <= k < |order| ==> order[k] in inside
    requires 0 <= n <= |order|
    ensures |s.held| == |held0|
    ensures ZeroOrAllowed(g.palette, held0) ==> ZeroOrAllowed(g.palette, s.held)
    decreases n
  {
    if n == 0 then InsideState(held0, used0)
    else
      var s := InsideSteps(g, held0, inside, used0, order, n - 1);
      var idx := order[n - 1];
      var chosen := InsideChoice(g, s.held, inside, s.used, idx);
      if chosen == 0 then s else InsideState(s.held[idx := chosen], s.used + {chosen})
  }

  /** No resolved room holds the mask of a conflicting inside room. */
  ghost predicate InsideSafe(g: Graph, held: seq<uint32>, inside: seq<int>, resolved: set<int>)
    requires WellFormed(g) && |held| == |g.bounds|
  {
    forall a, b :: a in resolved && 0 <= a < |held| && b in g.conflicts[a] && b in inside ==> held[a] != held[b]
  }

  /** Resolving one more inside room with a mask no conflicting inside room holds keeps `InsideSafe`. */
  lemma InsideSafeStep(g: Graph, held: seq<uint32>, inside: seq<int>, resolved: set<int>, idx: int, chosen: uint32)
    requires WellFormed(g) && SymmetricIrreflexive(g) && Fits(g, idx, held)
    requires forall a :: a in resolved ==> a in inside
    requires InsideSafe(g, held, inside, resolved)
    requires forall b :: b in g.conflicts[idx] && b in inside ==> chosen != held[b]
    ensures InsideSafe(g, held[idx := chosen], inside, resolved + {idx})
  {
    var after := held[idx := chosen];
    forall a, b | a in resolved + {idx} && 0 <= a < |after| && b in g.conflicts[a] && b in inside
      ensures after[a] != after[b]
    {
      if a == idx {
        assert b != idx;
      } else if b == idx {
        assert a in g.conflicts[idx];
      }
    }
  }

  /**
   * The inside pass: each inside room in `order` prefers a mask that is neither banned nor used by another
   * inside room, then takes the best mask for it, or keeps what it had when every channel is banned.
   * `resolved` is the set of rooms that took a mask. A resolved room ends with a mask that no conflicting
   * inside room holds; every other room keeps its mask. When the clamped separation is positive a room
   * also bans its own mask (it is in the local set), so every resolved room ends with a different mask.
   */
  method InsidePass(g: Graph, held0: seq<uint32>, inside: seq<int>, order: seq<int>)
    returns (held: seq<uint32>, ghost resolved: set<int>)
    requires WellFormed(g) && SymmetricIrreflexive(g)
    requires |held0| == |g.bounds| <= IntMax && ZeroOrAllowed(g.palette, held0)
    requires Rooms(g, inside)
    requires Distinct(order) && forall k :: 0 <= k < |order| ==> order[k] in inside
    ensures |held| == |held0| && ZeroOrAllowed(g.palette, held)
    ensures forall i :: i in resolved ==> i in order && 0 <= i < |held| && held[i] != 0
    ensures forall i :: 0 <= i < |held| && i !in resolved ==> held[i] == held0[i]
    ensures InsideSafe(g, held, inside, resolved)
    ensures g.minSeparationUsed > 0.0 ==> forall i :: i in resolved ==> held[i] != held0[i]
    ensures held == InsideSteps(g, held0, inside, UsedBy(g.palette, held0, inside), order, |order|).held
  {
    held := held0;
    resolved := {};
    assert Rooms(g, order);
    ghost var used0 := UsedBy(g.palette, held0, inside);
    var used := UsedBy(g.palette, held0, inside);
    var k := 0;
    while k < |order|
      invariant 0 <= k <= |order| && InsideState(held, used) == InsideSteps(g, held0, inside, used0, order, k)
      invariant InsideProgress(g, held0, inside, order, k, held, resolved)
    {
      held, used, resolved := InsideTurn(g, held0, inside, used0, order, k, held, used, resolved);
      k := k + 1;
    }
    assert order[..|order|] == order;
  }

  /**
   * One turn of the inside pass's loop, for room `order[k]`: its best mask, preferring one neither banned
   * nor used inside, is taken when it is not 0 and added to the used masks.
   */
  method InsideTurn(g: Graph, held0: seq<uint32>, inside: seq<int>, ghost used0: set<uint32>, order: seq<int>, k: int,
                    held: seq<uint32>, used: set<uint32>, ghost resolved: set<int>)
    returns (held': seq<uint32>, used': set<uint32>, ghost resolved': set<int>)
    requires WellFormed(g) && SymmetricIrreflexive(g)
    requires |held0| == |g.bounds| <= IntMax && ZeroOrAllowed(g.palette, held0)
    requires Rooms(g, inside)
    requires Distinct(order) && forall k :: 0 <= k < |order| ==> order[k] in inside
    requires Rooms(g, order)
    requires 0 <= k < |order| && InsideState(held, used) == InsideSteps(g, held0, inside, used0, order, k)
    requires InsideProgress(g, held0, inside, order, k, held, resolved)
    ensures InsideState(held', used') == InsideSteps(g, held0, inside, used0, order, k + 1)
    ensures InsideProgress(g, held0, inside, order, k + 1, held', resolved')
  {
    var idx := order[k];
    InsideAdvance(g, held0, inside, order, k, held, used, resolved);
    var chosen := InsideChoice(g, held, inside, used, idx);
    held', used', resolved' := held, used, resolved;
    if chosen != 0 {
      held' := held[idx := chosen];
      used' := used + {chosen};
      resolved' := resolved + {idx};
    }
  }

  /** The invariant of the inside pass's loop once it has handled `order[..k]`. */
  ghost predicate InsideProgress(g: Graph, held0: seq<uint32>, inside: seq<int>, order: seq<int>,
                                 k: int, held: seq<uint32>, resolved: set<int>)
    requires WellFormed(g) && |held0| == |g.bounds|
  {
    0 <= k <= |order| &&
    |held| == |held0| && ZeroOrAllowed(g.palette, held) &&
    (forall i :: i in resolved ==> i in order[..k] && i in inside && 0 <= i < |held| && held[i] != 0) &&
    (forall i :: 0 <= i < |held| && i !in resolved ==> held[i] == held0[i]) &&
    InsideSafe(g, held, inside, resolved) &&
    (g.minSeparationUsed > 0.0 ==> forall i :: i in resolved ==> held[i] != held0[i])
  }

  /** One turn of the inside pass keeps its invariant, whether or not the room takes a mask. */
  lemma InsideAdvance(g: Graph, held0: seq<uint32>, inside: seq<int>, order: seq<int>,
                      k: int, held: seq<uint32>, used: set<uint32>, resolved: set<int>)
    requires WellFormed(g) && SymmetricIrreflexive(g)
    requires |held0| == |g.bounds| <= IntMax && Rooms(g, inside)
    requires Distinct(order) && forall k :: 0 <= k < |order| ==> order[k] in inside
    requires InsideProgress(g, held0, inside, order, k, held, resolved) && k < |order|
    ensures var idx := order[k];
            var chosen := InsideChoice(g, held, inside, used, idx);
            if chosen == 0 then InsideProgress(g, held0, inside, order, k + 1, held, resolved)
            else InsideProgress(g, held0, inside, order, k + 1, held[idx := chosen], resolved + {idx})
  {
    PrefixStep(order, k);
    var idx := order[k];
    assert idx in inside;
    assert idx !in order[..k];
    var chosen := InsideChoice(g, held, inside, used, idx);
    if chosen != 0 {
      InsideSafeStep(g, held, inside, resolved, idx, chosen);
    }
  }

  /** Some conflicting inside room holds the same mask as `idx` (the border pass's `collides`). */
  predicate Collides(g: Graph, held: seq<uint32>, inside: seq<int>, idx: int)
    requires Fits(g, idx, held)
  {
    exists j :: j in g.conflicts[idx] && j in inside && held[j] == held[idx]
  }

  /**
   * The mask border room `idx` ends with when the border pass reaches it with the masks `held`: its own
   * mask when that is not 0 and no conflicting inside room holds it; otherwise `ChooseMask` of its local
   * banned set preferring its own mask, or its own mask when that finds nothing.
   */
  function BorderChoice(g: Graph, held: seq<uint32>, inside: seq<int>, idx: int): (r: uint32)
    requires Fits(g, idx, held) && ZeroOrAllowed(g.palette, held)
    ensures r == 0 || IsAllowedMask(g.palette, r)
    ensures held[idx] != 0 && !Collides(g, held, inside, idx) ==> r == held[idx]
    ensures (held[idx] == 0 || Collides(g, held, inside, idx)) &&
            !AllBanned(g.palette, BannedLocal(g, idx, held, inside)) ==>
              r != 0 && r !in BannedLocal(g, idx, held, inside)
    ensures r != held[idx] ==> r != 0 && forall j :: j in g.conflicts[idx] && j in inside ==> held[j] != r
  {
    var keep := held[idx];
    if keep != 0 && !Collides(g, held, inside, idx) then keep
    else
      var chosen := ChooseMask(g.palette, BannedLocal(g, idx, held, inside), keep);
      if chosen == 0 then keep else chosen
  }

  /** The border pass as a fold: the first `n` border rooms in turn take their `BorderChoice`. */
  function BorderSteps(g: Graph, held0: seq<uint32>, inside: seq<int>, border: seq<int>, n: int): (r: seq<uint32>)
    requires WellFormed(g) && |held0| == |g.bounds| && ZeroOrAllowed(g.palette, held0) && Rooms(g, border)
    requires 0 <= n <= |border|
    ensures |r| == |held0| && ZeroOrAllowed(g.palette, r)
    decreases n
  {
    if n == 0 then held0
    else
      var h := BorderSteps(g, held0, inside, border, n - 1);
      h[border[n - 1] := BorderChoice(g, h, inside, border[n - 1])]
  }

  /**
   * The border pass: a border room that holds a mask no conflicting inside room holds keeps it; any other
   * border room picks a mask not banned locally, keeping its old one when every channel is banned. A
   * border room whose mask changes ends with a mask no conflicting inside room holds; rooms outside the
   * border list keep theirs.
   */
  method BorderPass(g: Graph, held0: seq<uint32>, inside: seq<int>, border: seq<int>) returns (held: seq<uint32>)
    requires WellFormed(g) && |held0| == |g.bounds| && ZeroOrAllowed(g.palette, held0)
    requires Rooms(g, inside) && Rooms(g, border)
    requires Distinct(border) && forall k :: 0 <= k < |border| ==> border[k] !in inside
    ensures |held| == |held0| && ZeroOrAllowed(g.palette, held)
    ensures forall i :: 0 <= i < |held| && i !in border ==> held[i] == held0[i]
    ensures forall i :: i in border && held0[i] != 0 && !Collides(g, held0, inside, i) ==> held[i] == held0[i]
    ensures forall i :: i in border && held[i] != held0[i] ==>
                        held[i] != 0 && forall j :: j in g.conflicts[i] && j in inside ==> held[j] != held[i]
    ensures held == BorderSteps(g, held0, inside, border, |border|)
    ensures g.minSeparationUsed <= 0.0 ==> forall i :: i in border ==> held[i] == BorderChoice(g, held0, inside, i)
  {
    held := held0;
    var k := 0;
    while k < |border|
      invariant 0 <= k <= |border| && held == BorderSteps(g, held0, inside, border, k)
      invariant BorderProgress(g, held0, inside, border, k, held)
      invariant BorderFromSnapshot(g, held0, inside, border, k, held)
    {
      BorderAdvance(g, held0, inside, border, k, held);
      BorderAdvanceFromSnapshot(g, held0, inside, border, k, held);
      held := BorderTurn(g, inside, border[k], held);
      k := k + 1;
    }
    assert border[..|border|] == border;
  }

  /** One turn of the border pass's loop, for room `idx`: the room ends with its `BorderChoice`. */
  method BorderTurn(g: Graph, inside: seq<int>, idx: int, held: seq<uint32>) returns (held': seq<uint32>)
    requires Fits(g, idx, held) && ZeroOrAllowed(g.palette, held)
    ensures held' == held[idx := BorderChoice(g, held, inside, idx)]
  {
    var keep := held[idx];
    var collides := false;
    var n := 0;
    while n < |g.conflicts[idx]|
      invariant 0 <= n <= |g.conflicts[idx]|
      invariant collides <==> exists m :: 0 <= m < n && held[g.conflicts[idx][m]] == keep && g.conflicts[idx][m] in inside
    {
      var j := g.conflicts[idx][n];
      if held[j] == keep && j in inside {
        collides := true;
        break;
      }
      n := n + 1;
    }
    assert collides == Collides(g, held, inside, idx);
    held' := held;
    if !collides && keep != 0 {
      return;
    }
    var banned := BannedLocal(g, idx, held, inside);
    var chosen := ChooseMask(g.palette, banned, keep);
    held' := held[idx := if chosen == 0 then keep else chosen];
  }

  /** The invariant of the border pass's loop once it has handled `border[..k]`. */
  ghost predicate BorderProgress(g: Graph, held0: seq<uint32>, inside: seq<int>, border: seq<int>, k: int, held: seq<uint32>)
    requires WellFormed(g) && |held0| == |g.bounds|
  {
    0 <= k <= |border| && |held| == |held0| && ZeroOrAllowed(g.palette, held) &&
    (forall i :: 0 <= i < |held| && i !in border[..k] ==> held[i] == held0[i]) &&
    (forall i :: i in border[..k] && 0 <= i < |held0| && held0[i] != 0 && !Collides(g, held0, inside, i) ==>
                 held[i] == held0[i]) &&
    (forall i :: i in border[..k] && 0 <= i < |held0| && held[i] != held0[i] ==>
                 held[i] != 0 && forall j :: j in g.conflicts[i] && j in inside ==> held[j] != held[i])
  }

  /** Without a positive separation, the border rooms handled so far hold their choice under `held0`. */
  ghost predicate BorderFromSnapshot(g: Graph, held0: seq<uint32>, inside: seq<int>, border: seq<int>, k: int,
                                     held: seq<uint32>)
    requires WellFormed(g) && |held0| == |g.bounds| && ZeroOrAllowed(g.palette, held0) && 0 <= k <= |border|
  {
    g.minSeparationUsed <= 0.0 ==>
      forall i :: i in border[..k] && 0 <= i < |held0| ==> 0 <= i < |held| && held[i] == BorderChoice(g, held0, inside, i)
  }

  /**
   * Without a positive separation a border room's local banned set reads only the conflicting inside
   * rooms, so its choice depends only on those rooms and on its own mask.
   */
  lemma BorderChoiceLocal(g: Graph, h1: seq<uint32>, h2: seq<uint32>, inside: seq<int>, idx: int)
    requires Fits(g, idx, h1) && Fits(g, idx, h2) && ZeroOrAllowed(g.palette, h1) && ZeroOrAllowed(g.palette, h2)
    requires g.minSeparationUsed <= 0.0
    requires h1[idx] == h2[idx] && forall j :: j in g.conflicts[idx] && j in inside ==> h1[j] == h2[j]
    ensures BorderChoice(g, h1, inside, idx) == BorderChoice(g, h2, inside, idx)
  {
    assert BannedLocal(g, idx, h1, inside) == BannedLocal(g, idx, h2, inside);
    assert Collides(g, h1, inside, idx) == Collides(g, h2, inside, idx);
  }

  /** A border room's turn keeps the invariant: only it changes, and inside rooms are not touched. */
  lemma BorderAdvance(g: Graph, held0: seq<uint32>, inside: seq<int>, border: seq<int>, k: int, held: seq<uint32>)
    requires WellFormed(g) && |held0| == |g.bounds| && ZeroOrAllowed(g.palette, held0)
    requires Rooms(g, inside) && Rooms(g, border)
    requires Distinct(border) && forall k :: 0 <= k < |border| ==> border[k] !in inside
    requires BorderProgress(g, held0, inside, border, k, held) && k < |border|
    ensures BorderProgress(g, held0, inside, border, k + 1,
                           held[border[k] := BorderChoice(g, held, inside, border[k])])
  {
    PrefixStep(border, k);
    var idx := border[k];
    assert idx !in border[..k] && idx !in inside;
    assert Collides(g, held, inside, idx) == Collides(g, held0, inside, idx);
  }

  /** A border room's turn keeps `BorderFromSnapshot`: without a separation it sees what it saw in `held0`. */
  lemma BorderAdvanceFromSnapshot(g: Graph, held0: seq<uint32>, inside: seq<int>, border: seq<int>, k: int,
                                  held: seq<uint32>)
    requires WellFormed(g) && |held0| == |g.bounds| && ZeroOrAllowed(g.palette, held0)
    requires Rooms(g, inside) && Rooms(g, border)
    requires Distinct(border) && forall k :: 0 <= k < |border| ==> border[k] !in inside
    requires BorderProgress(g, held0, inside, border, k, held) && k < |border|
    requires BorderFromSnapshot(g, held0, inside, border, k, held)
    ensures BorderFromSnapshot(g, held0, inside, border, k + 1,
                               held[border[k] := BorderChoice(g, held, inside, border[k])])
  {
    PrefixStep(border, k);
    var idx := border[k];
    assert idx !in border[..k] && idx !in inside;
    if g.minSeparationUsed <= 0.0 {
      forall j | j in g.conflicts[idx] && j in inside
        ensures held[j] == held0[j]
      {
        assert j !in border[..k];
      }
      BorderChoiceLocal(g, held, held0, inside, idx);
    }
  }

  /** The mask an outside room without one takes: the first not banned, else the palette's first mask. */
  function OutsideChoice(g: Graph, held: seq<uint32>, idx: int): (r: uint32)
    requires Fits(g, idx, held) && ValidPalette(g.palette)
    ensures r != 0 && IsAllowedMask(g.palette, r)
    ensures r !in Banned(g, idx, held) || (AllBanned(g.palette, Banned(g, idx, held)) && r == MaskOf(g.palette, 0))
  {
    var chosen := ChooseMask(g.palette, Banned(g, idx, held), 0);
    ChooseMaskNothingBanned(g.palette);
    assert IsAllowedMask(g.palette, MaskOf(g.palette, 0));
    if chosen == 0 then ChooseMask(g.palette, {}, 0) else chosen
  }

  /** The outside pass as a fold: each of the first `n` outside rooms without a mask takes its `OutsideChoice`. */
  function OutsideSteps(g: Graph, held0: seq<uint32>, outside: seq<int>, n: int): (r: seq<uint32>)
    requires WellFormed(g) && ValidPalette(g.palette)
    requires |held0| == |g.bounds| && ZeroOrAllowed(g.palette, held0) && Rooms(g, outside)
    requires 0 <= n <= |outside|
    ensures |r| == |held0| && ZeroOrAllowed(g.palette, r)
    decreases n
  {
    if n == 0 then held0
    else
      var h := OutsideSteps(g, held0, outside, n - 1);
      var idx := outside[n - 1];
      if h[idx] == 0 then h[idx := OutsideChoice(g, h, idx)] else h
  }

  /**
   * The outside pass: an outside room without a mask takes the first mask not banned, or the palette's
   * first mask when every channel is banned; a room that has a mask keeps it. Every outside room ends
   * with a mask.
   */
  method OutsidePass(g: Graph, held0: seq<uint32>, outside: seq<int>) returns (held: seq<uint32>)
    requires WellFormed(g) && ValidPalette(g.palette)
    requires |held0| == |g.bounds| && ZeroOrAllowed(g.palette, held0)
    requires Rooms(g, outside)
    ensures |held| == |held0| && ZeroOrAllowed(g.palette, held)
    ensures forall i :: 0 <= i < |held| && i !in outside ==> held[i] == held0[i]
    ensures forall i :: i in outside ==> held[i] != 0
    ensures forall i :: i in outside && held0[i] != 0 ==> held[i] == held0[i]
    ensures held == OutsideSteps(g, held0, outside, |outside|)
  {
    held := held0;
    var k := 0;
    while k < |outside|
      invariant 0 <= k <= |outside| && held == OutsideSteps(g, held0, outside, k)
      invariant OutsideHandled(held0, held, outside[..k])
    {
      OutsideAdvance(g, held0, outside, k);
      held := OutsideTurn(g, held, outside[k]);
      k := k + 1;
    }
    assert outside[..|outside|] == outside;
    forall i | 0 <= i < |held|
      ensures i !in outside ==> held[i] == held0[i]
      ensures i in outside ==> held[i] != 0
      ensures held0[i] != 0 ==> held[i] == held0[i]
    {
      assert OutsideSoFar(held0, held, outside, i);
    }
  }

  /** One turn of the outside pass's loop, for room `idx`: a room without a mask takes its `OutsideChoice`. */
  method OutsideTurn(g: Graph, held: seq<uint32>, idx: int) returns (held': seq<uint32>)
    requires Fits(g, idx, held) && ValidPalette(g.palette)
    ensures held' == if held[idx] == 0 then held[idx := OutsideChoice(g, held, idx)] else held
  {
    held' := held;
    if held[idx] == 0 {
      held' := held[idx := OutsideChoice(g, held, idx)];
    }
  }

  /** One turn of the outside pass keeps `OutsideSoFar` for every room. */
  lemma OutsideAdvance(g: Graph, held0: seq<uint32>, outside: seq<int>, k: int)
    requires WellFormed(g) && ValidPalette(g.palette)
    requires |held0| == |g.bounds| && ZeroOrAllowed(g.palette, held0) && Rooms(g, outside)
    requires 0 <= k < |outside|
    requires OutsideHandled(held0, OutsideSteps(g, held0, outside, k), outside[..k])
    ensures OutsideHandled(held0, OutsideSteps(g, held0, outside, k + 1), outside[..k + 1])
  {
    PrefixStep(outside, k);
    var before := OutsideSteps(g, held0, outside, k);
    var after := OutsideSteps(g, held0, outside, k + 1);
    var seen := outside[..k + 1];
    forall i | 0 <= i < |held0|
      ensures OutsideSoFar(held0, after, seen, i)
    {
      assert OutsideSoFar(held0, before, outside[..k], i);
    }
  }

  /** Every room after the outside pass has handled the rooms `seen`. */
  predicate OutsideHandled(held0: seq<uint32>, held: seq<uint32>, seen: seq<int>)
    requires |held0| == |held|
  {
    forall i :: 0 <= i < |held| ==> OutsideSoFar(held0, held, seen, i)
  }

  /** Room `i` after the outside pass has handled the rooms `seen`. */
  predicate OutsideSoFar(held0: seq<uint32>, held: seq<uint32>, seen: seq<int>, i: int)
    requires 0 <= i < |held0| == |held|
  {
    (i !in seen ==> held[i] == held0[i]) && (i in seen ==> held[i] != 0) && (held0[i] != 0 ==> held[i] == held0[i])
  }

  /**
   * What the three passes of a dynamic assignment guarantee, starting from the snapshot `held0` and with
   * the zones of the player at `player`:
   * - an outside room ends with a mask, and keeps the one it had;
   * - an inside room whose mask changed ends with one no conflicting inside room holds;
   * - a border room that held a mask no conflicting inside room ends with keeps it;
   * - a border room whose mask changed ends with one no conflicting inside room holds.
   */
  ghost predicate ZoneOutcome(g: Graph, held0: seq<uint32>, held: seq<uint32>, player: Vec3, radiusIn: real, radiusOut: real)
    requires WellFormed(g)
  {
    |held| == |held0| == |g.bounds| && ZeroOrAllowed(g.palette, held) &&
    forall i :: 0 <= i < |held| ==> RoomOutcome(g, held0, held, player, radiusIn, radiusOut, i)
  }

  /** The guarantee of `ZoneOutcome` for room `i`, by its zone. */
  ghost predicate RoomOutcome(g: Graph, held0: seq<uint32>, held: seq<uint32>, player: Vec3, radiusIn: real,
                              radiusOut: real, i: int)
    requires WellFormed(g) && |held| == |held0| == |g.bounds| && 0 <= i < |held|
  {
    var zone := ZoneOf(player, g.bounds[i], radiusIn, radiusOut);
    (zone == Outside ==> held[i] != 0 && (held0[i] != 0 ==> held[i] == held0[i])) &&
    (zone == Inside && held[i] != held0[i] ==> held[i] != 0 && ApartFromInside(g, held, player, radiusIn, radiusOut, i, held[i])) &&
    (zone == Border && held0[i] != 0 && ApartFromInside(g, held, player, radiusIn, radiusOut, i, held0[i]) ==>
       held[i] == held0[i]) &&
    (zone == Border && held[i] != held0[i] ==> held[i] != 0 && ApartFromInside(g, held, player, radiusIn, radiusOut, i, held[i]))
  }

  /** No inside room that conflicts with room `i` holds mask `m`. */
  ghost predicate ApartFromInside(g: Graph, held: seq<uint32>, player: Vec3, radiusIn: real, radiusOut: real, i: int, m: uint32)
    requires WellFormed(g) && |held| == |g.bounds| && 0 <= i < |held|
  {
    forall j :: j in g.conflicts[i] && ZoneOf(player, g.bounds[j], radiusIn, radiusOut) == Inside ==> held[j] != m
  }

  /**
   * The masks a dynamic assignment has planned from the snapshot `held0`, with the player at `player`, once
   * the passes have run up to and including the pass over zone `last`. The passes run in zone order: the
   * inside rooms in `InsideOrder` take their `InsideChoice` in turn, starting from the masks they use; then
   * the border rooms in index order take their `BorderChoice`; then the outside rooms in index order that
   * have no mask take their `OutsideChoice`. The whole plan is `PlanAfter(.., Outside)`.
   */
  function PlanAfter(g: Graph, held0: seq<uint32>, player: Vec3, radiusIn: real, radiusOut: real, last: Zone)
    : (r: seq<uint32>)
    requires WellFormed(g) && ValidPalette(g.palette)
    requires |held0| == |g.bounds| <= IntMax && ZeroOrAllowed(g.palette, held0)
    ensures |r| == |held0| && ZeroOrAllowed(g.palette, r)
    decreases if last == Inside then 0 else if last == Border then 1 else 2
  {
    var inside := InZone(g.bounds, player, radiusIn, radiusOut, Inside, |g.bounds|);
    InZoneMembers(g.bounds, player, radiusIn, radiusOut, Inside, |g.bounds|);
    match last
    case Inside =>
      var order := InsideOrder(g, inside);
      InsideSteps(g, held0, inside, UsedBy(g.palette, held0, inside), order, |order|).held
    case Border =>
      var border := InZone(g.bounds, player, radiusIn, radiusOut, Border, |g.bounds|);
      InZoneMembers(g.bounds, player, radiusIn, radiusOut, Border, |g.bounds|);
      BorderSteps(g, PlanAfter(g, held0, player, radiusIn, radiusOut, Inside), inside, border, |border|)
    case Outside =>
      var outside := InZone(g.bounds, player, radiusIn, radiusOut, Outside, |g.bounds|);
      InZoneMembers(g.bounds, player, radiusIn, radiusOut, Outside, |g.bounds|);
      OutsideSteps(g, PlanAfter(g, held0, player, radiusIn, radiusOut, Border), outside, |outside|)
  }

  /** The inside, border and outside passes in turn, over the zone lists `Partition` built. */
  method ZonePasses(g: Graph, held0: seq<uint32>, player: Vec3, radiusIn: real, radiusOut: real,
                    inside: seq<int>, border: seq<int>, outside: seq<int>) returns (held: seq<uint32>)
    requires WellFormed(g) && SymmetricIrreflexive(g) && ValidPalette(g.palette)
    requires |held0| == |g.bounds| <= IntMax && ZeroOrAllowed(g.palette, held0)
    requires inside == InZone(g.bounds, player, radiusIn, radiusOut, Inside, |g.bounds|)
    requires border == InZone(g.bounds, player, radiusIn, radiusOut, Border, |g.bounds|)
    requires outside == InZone(g.bounds, player, radiusIn, radiusOut, Outside, |g.bounds|)
    ensures ZoneOutcome(g, held0, held, player, radiusIn, radiusOut)
    ensures held == PlanAfter(g, held0, player, radiusIn, radiusOut, Outside)
  {
    InZoneMembers(g.bounds, player, radiusIn, radiusOut, Inside, |g.bounds|);
    InZoneMembers(g.bounds, player, radiusIn, radiusOut, Border, |g.bounds|);
    InZoneMembers(g.bounds, player, radiusIn, radiusOut, Outside, |g.bounds|);
    var order := InsideOrder(g, inside);
    PermutationOfDistinct(inside, order);
    var afterInside, resolved := InsidePass(g, held0, inside, order);
    assert afterInside == PlanAfter(g, held0, player, radiusIn, radiusOut, Inside);
    var afterBorder := BorderPass(g, afterInside, inside, border);
    assert afterBorder == PlanAfter(g, held0, player, radiusIn, radiusOut, Border);
    held := OutsidePass(g, afterBorder, outside);
    ZoneOutcomeOfPasses(g, held0, afterInside, resolved, afterBorder, held, player, radiusIn, radiusOut, inside, border, outside);
  }

  /** The passes' own contracts, read zone by zone. */
  lemma ZoneOutcomeOfPasses(g: Graph, held0: seq<uint32>, afterInside: seq<uint32>, resolved: set<int>,
                            afterBorder: seq<uint32>, held: seq<uint32>, player: Vec3, radiusIn: real, radiusOut: real,
                            inside: seq<int>, border: seq<int>, outside: seq<int>)
    requires WellFormed(g) && |held0| == |g.bounds|
    requires forall i :: i in inside <==> 0 <= i < |g.bounds| && ZoneOf(player, g.bounds[i], radiusIn, radiusOut) == Inside
    requires forall i :: i in border <==> 0 <= i < |g.bounds| && ZoneOf(player, g.bounds[i], radiusIn, radiusOut) == Border
    requires forall i :: i in outside <==> 0 <= i < |g.bounds| && ZoneOf(player, g.bounds[i], radiusIn, radiusOut) == Outside
    // the inside pass
    requires |afterInside| == |held0|
    requires forall i :: i in resolved ==> i in inside && 0 <= i < |afterInside| && afterInside[i] != 0
    requires forall i :: 0 <= i < |afterInside| && i !in resolved ==> afterInside[i] == held0[i]
    requires InsideSafe(g, afterInside, inside, resolved)
    // the border pass
    requires |afterBorder| == |afterInside|
    requires forall i :: 0 <= i < |afterBorder| && i !in border ==> afterBorder[i] == afterInside[i]
    requires forall i :: i in border && afterInside[i] != 0 && !Collides(g, afterInside, inside, i) ==> afterBorder[i] == afterInside[i]
    requires forall i :: i in border && afterBorder[i] != afterInside[i] ==>
               afterBorder[i] != 0 && forall j :: j in g.conflicts[i] && j in inside ==> afterBorder[j] != afterBorder[i]
    // the outside pass
    requires |held| == |afterBorder| && ZeroOrAllowed(g.palette, held)
    requires forall i :: 0 <= i < |held| && i !in outside ==> held[i] == afterBorder[i]
    requires forall i :: i in outside ==> held[i] != 0
    requires forall i :: i in outside && afterBorder[i] != 0 ==> held[i] == afterBorder[i]
    ensures ZoneOutcome(g, held0, held, player, radiusIn, radiusOut)
  {
    forall i | 0 <= i < |held|
      ensures RoomOutcome(g, held0, held, player, radiusIn, radiusOut, i)
    {
      var zone := ZoneOf(player, g.bounds[i], radiusIn, radiusOut);
      if zone == Outside {
        assert i in outside && i !in inside && i !in border;
      } else if zone == Inside {
        assert i in inside && i !in outside && i !in border;
        if held[i] != held0[i] {
          assert i in resolved;
          forall j | j in g.conflicts[i] && ZoneOf(player, g.bounds[j], radiusIn, radiusOut) == Inside
            ensures held[j] != held[i]
          {
            assert j in inside && j !in outside && j !in border;
          }
        }
      } else {
        assert i in border && i !in outside && i !in inside && i !in resolved;
        forall j | j in g.conflicts[i] && ZoneOf(player, g.bounds[j], radiusIn, radiusOut) == Inside
          ensures held[j] == afterInside[j]
        {
          assert j in inside && j !in outside && j !in border;
        }
      }
    }
  }
}

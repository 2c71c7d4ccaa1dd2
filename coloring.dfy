/**
 * The channel engine's colouring logic on values: the conflict graph, the banned-mask sets, the two mask
 * choosers and the static greedy colouring.
 *
 * A room is an index into the service's room list. `held[i]` is the mask room `i` holds (the source's
 * `assigned[i]`), 0 for none.
 */
module Coloring {
  import opened Geometry
  import opened Masks
  import opened Sorting

  /**
   * What `BuildConflictGraph` leaves in the service: the room boxes, the conflict lists, the clamped minimum
   * separation and the clamped proximity factor; with the palette fixed by the constructor.
   */
  datatype Graph = Graph(palette: Palette, bounds: seq<Bounds>, conflicts: seq<seq<int>>,
                         minSeparationUsed: real, proximityFactor: real)

  /** One conflict list per room, holding room indices. */
  ghost predicate WellFormed(g: Graph) {
    |g.conflicts| == |g.bounds| &&
    forall a, k :: 0 <= a < |g.conflicts| && 0 <= k < |g.conflicts[a]| ==> 0 <= g.conflicts[a][k] < |g.bounds|
  }

  /** The conflict relation is symmetric and no room conflicts with itself. */
  ghost predicate SymmetricIrreflexive(g: Graph)
    requires WellFormed(g)
  {
    forall a, b :: 0 <= a < |g.conflicts| && b in g.conflicts[a] ==> a != b && a in g.conflicts[b]
  }

  // ---------------------------------------------------------------------------------------------------
  // The conflict graph
  // ---------------------------------------------------------------------------------------------------

  /** `AABBtoAABBDistance(bounds[a], bounds[b]) < separation`. */
  predicate Close(bounds: seq<Bounds>, separation: real, a: int, b: int)
    requires 0 <= a < |bounds| && 0 <= b < |bounds|
  {
    CloserThan(SqDistanceBoxes(bounds[a], bounds[b]), separation)
  }

  lemma CloseSymmetric(bounds: seq<Bounds>, separation: real, a: int, b: int)
    requires 0 <= a < |bounds| && 0 <= b < |bounds|
    ensures Close(bounds, separation, a, b) == Close(bounds, separation, b, a)
  {
    SqDistanceBoxesSymmetric(bounds[a], bounds[b]);
  }

  /** The rooms below `k`, other than `a`, closer to `a` than `separation`, in increasing order. */
  function NeighboursBelow(bounds: seq<Bounds>, separation: real, a: int, k: int): seq<int>
    requires 0 <= a < |bounds| && 0 <= k <= |bounds|
  {
    if k == 0 then []
    else NeighboursBelow(bounds, separation, a, k - 1) +
         (if k - 1 != a && Close(bounds, separation, a, k - 1) then [k - 1] else [])
  }

  /** The conflict lists the nested loop of `BuildConflictGraph` produces. */
  function ConflictLists(bounds: seq<Bounds>, separation: real): (r: seq<seq<int>>)
    ensures |r| == |bounds|
  {
    seq(|bounds|, a requires 0 <= a < |bounds| => NeighboursBelow(bounds, separation, a, |bounds|))
  }

  lemma {:induction false} NeighboursBelowMembers(bounds: seq<Bounds>, separation: real, a: int, k: int, b: int)
    requires 0 <= a < |bounds| && 0 <= k <= |bounds|
    ensures b in NeighboursBelow(bounds, separation, a, k) <==>
              0 <= b < k && b != a && Close(bounds, separation, a, b)
  {
    if k > 0 {
      NeighboursBelowMembers(bounds, separation, a, k - 1, b);
    }
  }

  /** Each conflict list is strictly increasing, so it names each neighbour once. */
  lemma {:induction false} NeighboursBelowIncreasing(bounds: seq<Bounds>, separation: real, a: int, k: int)
    requires 0 <= a < |bounds| && 0 <= k <= |bounds|
    ensures forall i, j :: 0 <= i < j < |NeighboursBelow(bounds, separation, a, k)| ==>
              NeighboursBelow(bounds, separation, a, k)[i] < NeighboursBelow(bounds, separation, a, k)[j]
    ensures forall i :: 0 <= i < |NeighboursBelow(bounds, separation, a, k)| ==>
              0 <= NeighboursBelow(bounds, separation, a, k)[i] < k
  {
    if k > 0 {
      NeighboursBelowIncreasing(bounds, separation, a, k - 1);
    }
  }

  /**
   * The conflict graph is irreflexive and symmetric: `b` is in the list of `a` exactly when `a` is in the
   * list of `b`, which is exactly when they are different rooms closer than the separation.
   */
  lemma ConflictListsMembers(bounds: seq<Bounds>, separation: real, a: int, b: int)
    requires 0 <= a < |bounds| && 0 <= b < |bounds|
    ensures b in ConflictLists(bounds, separation)[a] <==> a != b && Close(bounds, separation, a, b)
    ensures b in ConflictLists(bounds, separation)[a] <==> a in ConflictLists(bounds, separation)[b]
  {
    NeighboursBelowMembers(bounds, separation, a, |bounds|, b);
    NeighboursBelowMembers(bounds, separation, b, |bounds|, a);
    CloseSymmetric(bounds, separation, a, b);
  }

  /** With no positive separation no two rooms conflict. */
  lemma NoConflictsWithoutSeparation(bounds: seq<Bounds>, separation: real, a: int)
    requires 0 <= a < |bounds| && separation <= 0.0
    ensures ConflictLists(bounds, separation)[a] == []
  {
    if ConflictLists(bounds, separation)[a] != [] {
      var b := ConflictLists(bounds, separation)[a][0];
      NeighboursBelowMembers(bounds, separation, a, |bounds|, b);
    }
  }

  /** A graph built from the conflict lists is well formed, symmetric and irreflexive. */
  lemma BuiltGraphIsSymmetric(g: Graph, separation: real)
    requires g.conflicts == ConflictLists(g.bounds, separation)
    ensures WellFormed(g) && SymmetricIrreflexive(g)
  {
    forall a, k | 0 <= a < |g.conflicts| && 0 <= k < |g.conflicts[a]|
      ensures 0 <= g.conflicts[a][k] < |g.bounds|
    {
      assert g.conflicts[a] == NeighboursBelow(g.bounds, separation, a, |g.bounds|);
      NeighboursBelowIncreasing(g.bounds, separation, a, |g.bounds|);
    }
    forall a, b | 0 <= a < |g.conflicts| && b in g.conflicts[a]
      ensures a != b && a in g.conflicts[b]
    {
      ConflictListsMembers(g.bounds, separation, a, b);
    }
  }

  /** `_conflicts[i].Count`. */
  function Degree(g: Graph, i: int): int
    requires 0 <= i < |g.conflicts|
  {
    |g.conflicts[i]|
  }

  /** The room indices `0 .. n-1` in increasing order. */
  function Range(n: nat): (r: seq<int>)
    ensures |r| == n && forall i :: 0 <= i < n ==> r[i] == i
  {
    seq(n, i => i)
  }

  /** `order` lists every room exactly once, by non-increasing degree (the order `BuildOrderByDegree` sorts into). */
  ghost predicate DegreeOrder(g: Graph, order: seq<int>)
    requires WellFormed(g)
  {
    multiset(order) == multiset(Range(|g.bounds|)) &&
    (forall k :: 0 <= k < |order| ==> 0 <= order[k] < |g.bounds|) &&
    forall i, j :: 0 <= i < j < |order| ==> Degree(g, order[i]) >= Degree(g, order[j])
  }

  // ---------------------------------------------------------------------------------------------------
  // Banned masks and scores
  // ---------------------------------------------------------------------------------------------------

  /** The separation the proximity rules use: `_minSeparationUsed * _proximityFactor`. */
  function Threshold(g: Graph): real {
    g.minSeparationUsed * g.proximityFactor
  }

  /** `AABBtoAABBDistance(bounds[a], bounds[b]) < threshold`. */
  predicate Near(g: Graph, a: int, b: int)
    requires 0 <= a < |g.bounds| && 0 <= b < |g.bounds|
  {
    Close(g.bounds, Threshold(g), a, b)
  }

  /** `IsWithinProximity`: false whenever the clamped separation is not positive. */
  predicate WithinProximity(g: Graph, a: int, b: int)
    requires 0 <= a < |g.bounds| && 0 <= b < |g.bounds|
  {
    g.minSeparationUsed > 0.0 && Near(g, a, b)
  }

  /** What a pass may read of a room and of the current assignment. */
  ghost predicate Fits(g: Graph, idx: int, held: seq<uint32>) {
    WellFormed(g) && 0 <= idx < |g.bounds| && |held| == |g.bounds|
  }

  /**
   * `GetBannedMasks`: the allowed masks of the rooms in the conflict list of `idx`, and, when the clamped
   * separation is positive, those of the other rooms nearer than the proximity threshold.
   */
  function Banned(g: Graph, idx: int, held: seq<uint32>): (r: set<uint32>)
    requires Fits(g, idx, held)
    ensures forall m :: m in r ==> IsAllowedMask(g.palette, m)
    ensures forall j :: j in g.conflicts[idx] && IsAllowedMask(g.palette, held[j]) ==> held[j] in r
    ensures forall j ::
              0 <= j < |held| && j != idx && WithinProximity(g, idx, j) && IsAllowedMask(g.palette, held[j]) ==>
              held[j] in r
    ensures forall m :: m in r ==> exists j :: 0 <= j < |held| && held[j] == m &&
                                     (j in g.conflicts[idx] || (j != idx && WithinProximity(g, idx, j)))
  {
    (set j | j in g.conflicts[idx] && IsAllowedMask(g.palette, held[j]) :: held[j]) +
    (if g.minSeparationUsed > 0.0
     then set j | 0 <= j < |held| && j != idx && Near(g, idx, j) && IsAllowedMask(g.palette, held[j])
                :: held[j]
     else {})
  }

  /**
   * `GetBannedMasksLocal`: the allowed masks of the conflicting rooms that are in `local`, and, when the
   * clamped separation is positive, those of EVERY room in `local` (`idx` itself included) and of every
   * room nearer than the proximity threshold.
   */
  function BannedLocal(g: Graph, idx: int, held: seq<uint32>, local: seq<int>): (r: set<uint32>)
    requires Fits(g, idx, held)
    ensures forall m :: m in r ==> IsAllowedMask(g.palette, m)
    ensures forall j :: j in g.conflicts[idx] && j in local && IsAllowedMask(g.palette, held[j]) ==>
                        held[j] in r
    ensures g.minSeparationUsed > 0.0 ==>
              forall j ::
                0 <= j < |held| && (j in local || Near(g, idx, j)) && IsAllowedMask(g.palette, held[j]) ==>
                held[j] in r
    ensures forall m :: m in r ==> exists j :: 0 <= j < |held| && held[j] == m &&
                                     ((j in g.conflicts[idx] && j in local) ||
                                      (g.minSeparationUsed > 0.0 && (j in local || Near(g, idx, j))))
  {
    (set j | j in g.conflicts[idx] && j in local && IsAllowedMask(g.palette, held[j]) :: held[j]) +
    (if g.minSeparationUsed > 0.0
     then set j | 0 <= j < |held| && (j in local || Near(g, idx, j)) && IsAllowedMask(g.palette, held[j])
                :: held[j]
     else {})
  }

  /**
   * The inner loop of `ChooseBestMaskForRoom` over the first `n` rooms: how many rooms other than `idx`
   * hold `cand` and are within proximity of `idx`.
   */
  function ProximityCount(g: Graph, idx: int, held: seq<uint32>, cand: uint32, n: int): (r: nat)
    requires Fits(g, idx, held) && 0 <= n <= |held|
    ensures r <= n && (idx < n ==> r < n)
  {
    if n == 0 then 0
    else
      ProximityCount(g, idx, held, cand, n - 1) +
        (if n - 1 != idx && held[n - 1] == cand && WithinProximity(g, idx, n - 1) then 1 else 0)
  }

  /** The proximity score of `cand` for room `idx`, which is below the number of rooms since `idx` is not counted. */
  function Score(g: Graph, idx: int, held: seq<uint32>, cand: uint32): (r: nat)
    requires Fits(g, idx, held)
    ensures r < |held|
  {
    ProximityCount(g, idx, held, cand, |held|)
  }

  /** The rooms below `n`, other than `idx`, that hold `cand` and are within proximity of `idx`. */
  ghost function Users(g: Graph, idx: int, held: seq<uint32>, cand: uint32, n: int): set<int>
    requires Fits(g, idx, held) && 0 <= n <= |held|
  {
    set j | 0 <= j < n && j != idx && held[j] == cand && WithinProximity(g, idx, j)
  }

  /** The count of the loop is the number of those rooms. */
  lemma {:induction false} ProximityCountIsUsers(g: Graph, idx: int, held: seq<uint32>, cand: uint32, n: int)
    requires Fits(g, idx, held) && 0 <= n <= |held|
    ensures ProximityCount(g, idx, held, cand, n) == |Users(g, idx, held, cand, n)|
  {
    if n > 0 {
      ProximityCountIsUsers(g, idx, held, cand, n - 1);
      var before := Users(g, idx, held, cand, n - 1);
      if n - 1 != idx && held[n - 1] == cand && WithinProximity(g, idx, n - 1) {
        assert Users(g, idx, held, cand, n) == before + {n - 1};
        assert n - 1 !in before;
      } else {
        assert Users(g, idx, held, cand, n) == before;
      }
    }
  }

  /** The score is the number of other rooms within proximity of `idx` that already hold `cand`. */
  lemma ScoreCountsUsers(g: Graph, idx: int, held: seq<uint32>, cand: uint32)
    requires Fits(g, idx, held)
    ensures Score(g, idx, held, cand) ==
            |set j | 0 <= j < |held| && j != idx && held[j] == cand && WithinProximity(g, idx, j)|
  {
    ProximityCountIsUsers(g, idx, held, cand, |held|);
  }

  // ---------------------------------------------------------------------------------------------------
  // Choosing a mask for one room
  // ---------------------------------------------------------------------------------------------------

  /** The first channel that is neither banned nor already used, or 0: the inside pass's `prefer`. */
  function PreferUnused(p: Palette, banned: set<uint32>, used: set<uint32>): (r: uint32)
    ensures r == 0 || (IsAllowedMask(p, r) && r !in banned && r !in used)
    ensures r == 0 <==> AllBanned(p, banned + used)
  {
    var r := FirstFree(p, banned + used, 0);
    assert r != 0 ==> exists k :: 0 <= k < p.colorCount && r == MaskOf(p, k);
    r
  }

  /** `score` is at most the score of every channel below `c` that is not banned. */
  ghost predicate LeastSoFar(g: Graph, idx: int, banned: set<uint32>, held: seq<uint32>, c: int, score: int)
    requires Fits(g, idx, held)
  {
    forall k :: 0 <= k < c && k < g.palette.colorCount && MaskOf(g.palette, k) !in banned ==>
      score <= Score(g, idx, held, MaskOf(g.palette, k))
  }

  /**
   * `m` is channel `kb`'s mask, not banned, with a score no channel below `c` beats, and every lower channel
   * that is not banned scores strictly worse.
   */
  ghost predicate BestOf(g: Graph, idx: int, banned: set<uint32>, held: seq<uint32>, c: int, m: uint32, kb: int)
    requires Fits(g, idx, held)
  {
    0 <= kb < c && kb < g.palette.colorCount && m == MaskOf(g.palette, kb) && m !in banned &&
    LeastSoFar(g, idx, banned, held, c, Score(g, idx, held, m)) &&
    forall k :: 0 <= k < kb && MaskOf(g.palette, k) !in banned ==>
      Score(g, idx, held, MaskOf(g.palette, k)) > Score(g, idx, held, m)
  }

  /** What the scan state of `ChooseBestMaskForRoom` means after the channels below `c`. */
  ghost predicate ScanState(g: Graph, idx: int, banned: set<uint32>, held: seq<uint32>,
                            c: int, best: uint32, bestScore: int)
    requires Fits(g, idx, held)
  {
    (best == 0 ==> bestScore == IntMax &&
                   forall k :: 0 <= k < c && k < g.palette.colorCount ==> MaskOf(g.palette, k) in banned) &&
    (best != 0 ==> bestScore == Score(g, idx, held, best) && exists kb :: BestOf(g, idx, banned, held, c, best, kb))
  }

  /**
   * The scan of `ChooseBestMaskForRoom` from channel `c` on, with the best mask so far and its score
   * (`int.MaxValue` while there is none). A later channel replaces the best only with a strictly lower score,
   * and a score of 0 ends the scan.
   */
  function BestFrom(g: Graph, idx: int, banned: set<uint32>, held: seq<uint32>,
                    c: int, best: uint32, bestScore: int): (r: uint32)
    requires Fits(g, idx, held) && 0 <= c
    decreases g.palette.colorCount - c
    ensures r == best || (r !in banned && exists k :: c <= k < g.palette.colorCount && r == MaskOf(g.palette, k))
  {
    if c >= g.palette.colorCount then best
    else
      var cand := MaskOf(g.palette, c);
      if cand in banned then BestFrom(g, idx, banned, held, c + 1, best, bestScore)
      else
        var score := Score(g, idx, held, cand);
        if score < bestScore then
          if score == 0 then cand
          else BestFrom(g, idx, banned, held, c + 1, cand, score)
        else BestFrom(g, idx, banned, held, c + 1, best, bestScore)
  }

  /** Channel `c` does not replace the best so far: the scan state carries over to `c + 1`. */
  lemma ScanKeeps(g: Graph, idx: int, banned: set<uint32>, held: seq<uint32>, c: int, best: uint32, bestScore: int)
    requires Fits(g, idx, held) && |held| <= IntMax && 0 <= c < g.palette.colorCount
    requires ScanState(g, idx, banned, held, c, best, bestScore)
    requires MaskOf(g.palette, c) in banned || Score(g, idx, held, MaskOf(g.palette, c)) >= bestScore
    ensures ScanState(g, idx, banned, held, c + 1, best, bestScore)
  {
    if best != 0 {
      var kb :| BestOf(g, idx, banned, held, c, best, kb);
      assert BestOf(g, idx, banned, held, c + 1, best, kb);
    }
  }

  /** Channel `c` scores strictly better than the best so far and takes its place. */
  lemma ScanTakes(g: Graph, idx: int, banned: set<uint32>, held: seq<uint32>, c: int, best: uint32, bestScore: int)
    requires Fits(g, idx, held) && 0 <= c < g.palette.colorCount
    requires ScanState(g, idx, banned, held, c, best, bestScore)
    requires MaskOf(g.palette, c) !in banned && Score(g, idx, held, MaskOf(g.palette, c)) < bestScore
    ensures ScanState(g, idx, banned, held, c + 1, MaskOf(g.palette, c), Score(g, idx, held, MaskOf(g.palette, c)))
    ensures Score(g, idx, held, MaskOf(g.palette, c)) == 0 ==>
              BestOf(g, idx, banned, held, g.palette.colorCount, MaskOf(g.palette, c), c)
  {
    assert BestOf(g, idx, banned, held, c + 1, MaskOf(g.palette, c), c);
  }

  /** Past the last channel the scan state says what the scan returns. */
  lemma ScanEnds(g: Graph, idx: int, banned: set<uint32>, held: seq<uint32>, c: int, best: uint32, bestScore: int)
    requires Fits(g, idx, held) && c >= g.palette.colorCount
    requires ScanState(g, idx, banned, held, c, best, bestScore)
    ensures best == 0 <==> AllBanned(g.palette, banned)
    ensures best != 0 ==> exists kb :: BestOf(g, idx, banned, held, g.palette.colorCount, best, kb)
  {
    if best != 0 {
      var kb :| BestOf(g, idx, banned, held, c, best, kb);
      assert BestOf(g, idx, banned, held, g.palette.colorCount, best, kb);
      assert MaskOf(g.palette, kb) !in banned;
    }
  }

  /** A channel that is not banned and scores 0 ends the scan: it is the best of all channels. */
  lemma ScanStops(g: Graph, idx: int, banned: set<uint32>, held: seq<uint32>, c: int, best: uint32, bestScore: int)
    requires Fits(g, idx, held) && 0 <= c < g.palette.colorCount
    requires ScanState(g, idx, banned, held, c, best, bestScore)
    requires MaskOf(g.palette, c) !in banned && Score(g, idx, held, MaskOf(g.palette, c)) == 0 < bestScore
    ensures MaskOf(g.palette, c) != 0 && !AllBanned(g.palette, banned)
    ensures exists kb :: BestOf(g, idx, banned, held, g.palette.colorCount, MaskOf(g.palette, c), kb)
  {
    ScanTakes(g, idx, banned, held, c, best, bestScore);
    assert BestOf(g, idx, banned, held, g.palette.colorCount, MaskOf(g.palette, c), c);
  }

  /** The scan keeps its meaning to the end: it finds a best channel, or 0 when every channel is banned. */
  lemma {:induction false} BestFromIsBest(g: Graph, idx: int, banned: set<uint32>, held: seq<uint32>,
                                          c: int, best: uint32, bestScore: int)
    requires Fits(g, idx, held) && |held| <= IntMax && 0 <= c
    requires ScanState(g, idx, banned, held, c, best, bestScore)
    decreases g.palette.colorCount - c
    ensures var r := BestFrom(g, idx, banned, held, c, best, bestScore);
            (r == 0 <==> AllBanned(g.palette, banned)) &&
            (r != 0 ==> exists kb :: BestOf(g, idx, banned, held, g.palette.colorCount, r, kb))
  {
    if c >= g.palette.colorCount {
      ScanEnds(g, idx, banned, held, c, best, bestScore);
    } else {
      var cand := MaskOf(g.palette, c);
      if cand !in banned && Score(g, idx, held, cand) < bestScore {
        if Score(g, idx, held, cand) == 0 {
          ScanStops(g, idx, banned, held, c, best, bestScore);
        } else {
          ScanTakes(g, idx, banned, held, c, best, bestScore);
          BestFromIsBest(g, idx, banned, held, c + 1, cand, Score(g, idx, held, cand));
        }
      } else {
        ScanKeeps(g, idx, banned, held, c, best, bestScore);
        BestFromIsBest(g, idx, banned, held, c + 1, best, bestScore);
      }
    }
  }

  /**
   * `ChooseBestMaskForRoom`: a keepable `prefer` wins. Otherwise, among the channels that are not banned,
   * one whose proximity score is least, the lowest channel among equals; 0 exactly when every channel is
   * banned. (`|held|` cannot exceed `int.MaxValue`, the bound of a C# array.)
   */
  function ChooseBest(g: Graph, idx: int, banned: set<uint32>, prefer: uint32, held: seq<uint32>): (r: uint32)
    requires Fits(g, idx, held) && |held| <= IntMax
    ensures Keepable(g.palette, banned, prefer) ==> r == prefer
    ensures !Keepable(g.palette, banned, prefer) ==> (r == 0 <==> AllBanned(g.palette, banned))
    ensures !Keepable(g.palette, banned, prefer) && r != 0 ==>
              exists kb :: BestOf(g, idx, banned, held, g.palette.colorCount, r, kb)
    ensures r == 0 || (IsAllowedMask(g.palette, r) && r !in banned)
  {
    if Keepable(g.palette, banned, prefer) then prefer
    else
      BestFromIsBest(g, idx, banned, held, 0, 0, IntMax);
      BestFrom(g, idx, banned, held, 0, 0, IntMax)
  }

  // ---------------------------------------------------------------------------------------------------
  // Static colouring
  // ---------------------------------------------------------------------------------------------------

  /** Every entry is 0 or one of the palette's masks. */
  ghost predicate ZeroOrAllowed(p: Palette, held: seq<uint32>) {
    forall i :: 0 <= i < |held| ==> held[i] == 0 || IsAllowedMask(p, held[i])
  }

  /** No two conflicting rooms that both hold a mask hold the same one. */
  ghost predicate ProperlyColoured(g: Graph, held: seq<uint32>)
    requires WellFormed(g) && |held| == |g.bounds|
  {
    forall a, b :: 0 <= a < |held| && b in g.conflicts[a] && held[a] != 0 && held[b] != 0 ==>
      held[a] != held[b]
  }

  /** One iteration of `GlobalAssign`'s loop: the room takes the first mask not banned, if there is one. */
  function GreedyStep(g: Graph, held: seq<uint32>, idx: int): (r: seq<uint32>)
    requires Fits(g, idx, held)
    ensures |r| == |held|
  {
    var chosen := ChooseMask(g.palette, Banned(g, idx, held), 0);
    if chosen == 0 then held else held[idx := chosen]
  }

  /** The masks `GlobalAssign` computes when it visits the rooms in `order`, starting from all 0. */
  function Greedy(g: Graph, order: seq<int>): (r: seq<uint32>)
    requires WellFormed(g)
    requires forall k :: 0 <= k < |order| ==> 0 <= order[k] < |g.bounds|
    ensures |r| == |g.bounds|
  {
    if |order| == 0 then seq(|g.bounds|, _ => 0)
    else GreedyStep(g, Greedy(g, order[..|order| - 1]), order[|order| - 1])
  }

  lemma GreedyStepSafe(g: Graph, held: seq<uint32>, idx: int)
    requires Fits(g, idx, held) && SymmetricIrreflexive(g)
    requires ZeroOrAllowed(g.palette, held) && ProperlyColoured(g, held)
    ensures ZeroOrAllowed(g.palette, GreedyStep(g, held, idx))
    ensures ProperlyColoured(g, GreedyStep(g, held, idx))
  {
    var banned := Banned(g, idx, held);
    var r := GreedyStep(g, held, idx);
    forall a, b | 0 <= a < |r| && b in g.conflicts[a] && r[a] != 0 && r[b] != 0
      ensures r[a] != r[b]
    {
      if a == idx && r != held {
        assert b != idx;
        assert r[b] == held[b] && held[b] in banned;
      } else if b == idx && r != held {
        assert a != idx && idx in g.conflicts[a] && a in g.conflicts[idx];
        assert r[a] == held[a] && held[a] in banned;
      }
    }
  }

  /**
   * Static mode is safe: whatever order the rooms are visited in, two conflicting rooms that both end with a
   * mask end with different masks, and every mask is one of the palette's.
   */
  lemma {:induction false} GreedySafe(g: Graph, order: seq<int>)
    requires WellFormed(g) && SymmetricIrreflexive(g)
    requires forall k :: 0 <= k < |order| ==> 0 <= order[k] < |g.bounds|
    ensures ZeroOrAllowed(g.palette, Greedy(g, order))
    ensures ProperlyColoured(g, Greedy(g, order))
  {
    if |order| > 0 {
      GreedySafe(g, order[..|order| - 1]);
      GreedyStepSafe(g, Greedy(g, order[..|order| - 1]), order[|order| - 1]);
    }
  }

  /** A room the greedy pass leaves at 0 found every channel banned when it was visited. */
  lemma GreedyStepUnresolved(g: Graph, held: seq<uint32>, idx: int)
    requires Fits(g, idx, held) && ValidPalette(g.palette)
    ensures GreedyStep(g, held, idx)[idx] == 0 <==>
              held[idx] == 0 && AllBanned(g.palette, Banned(g, idx, held))
  {
  }
}

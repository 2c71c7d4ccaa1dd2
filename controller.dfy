/**
 * `DynamicLightRenderLayerController`: the component that owns the assignment service, clamps the stored
 * colour count, runs an assignment with `UpdateInput` at most once per tick interval (dynamic when
 * `radiusIn > 0`, static otherwise), and can run one static assignment on request. Its gizmo helpers `MaskToColorIndex` and `ReadRoomRenderingLayerMask` are modelled too.
 *
 * `time` is the host clock read by `Start` and `Update`; `position` is the component's own position.
 */
module ChannelController {
  import opened Wrappers
  import opened Geometry
  import opened Masks
  import opened Scene
  import opened Tally
  import opened Coloring
  import opened AssignmentInput
  import opened ChannelService

  /** The largest colour count `ClampColorCountToStoredConfig` allows. */
  function MaxUsable(firstBit: int, configuredLightLayers: int): (r: int)
    ensures 1 <= r <= 31
  {
    var first := Clamp(firstBit, 1, 31);
    var maxByBits := MaxInt(1, MaxInt(0, 32 - first));
    var maxByLayers := MaxInt(1, configuredLightLayers);
    MinInt(maxByBits, maxByLayers)
  }

  /**
   * The controller's bound is the one the service's constructor applies, so a clamped colour count is the
   * count the service's palette ends up with.
   */
  lemma ClampAgreesWithService(firstBit: int, colorCount: int, configuredLightLayers: int)
    requires 1 <= colorCount <= MaxUsable(firstBit, configuredLightLayers)
    ensures NewPalette(firstBit, colorCount, configuredLightLayers).colorCount == colorCount
  {
  }

  /** Consecutive entries are at least `gap` apart. */
  ghost predicate Spaced(times: seq<real>, gap: real) {
    forall k :: 0 <= k < |times| - 1 ==> times[k + 1] >= times[k] + gap
  }

  /** With a positive gap the entries increase, so any two of them are at least `gap` apart. */
  lemma {:induction false} SpacedApart(times: seq<real>, gap: real, i: int, j: int)
    requires Spaced(times, gap) && gap > 0.0
    requires 0 <= i < j < |times|
    ensures times[j] - times[i] >= gap
    decreases j - i
  {
    if j > i + 1 {
      SpacedApart(times, gap, i, j - 1);
      assert times[j] >= times[j - 1] + gap;
    } else {
      assert times[i + 1] >= times[i] + gap;
    }
  }

  /** Bit `firstBit + j` of `mask` is set, the shift count taken modulo 32 as C#'s `1u << bit` does. */
  predicate ChannelSet(mask: uint32, firstBit: int, j: int) {
    HasBit(mask, (firstBit + j) % 32)
  }

  /**
   * `MaskToColorIndex`: -1 for mask 0; otherwise the least channel `i < colorCount` whose bit is set in the
   * mask, or -1 when there is none.
   */
  method MaskToColorIndex(mask: uint32, firstBit: int, colorCount: int) returns (r: int)
    ensures mask == 0 ==> r == -1
    ensures r != -1 ==> 0 <= r < colorCount && ChannelSet(mask, firstBit, r) &&
                        forall j :: 0 <= j < r ==> !ChannelSet(mask, firstBit, j)
    ensures r == -1 && mask != 0 ==> forall j :: 0 <= j < colorCount ==> !ChannelSet(mask, firstBit, j)
  {
    if mask == 0 {
      return -1;
    }
    var i := 0;
    while i < colorCount
      invariant 0 <= i && (colorCount >= 0 ==> i <= colorCount)
      invariant forall j :: 0 <= j < i ==> !ChannelSet(mask, firstBit, j)
    {
      var bit := firstBit + i;
      var m := ShiftOne(bit);
      if (mask / m) % 2 == 1 {
        return i;
      }
      i := i + 1;
    }
    return -1;
  }

  lemma DivOfMultiple(x: nat, k: nat)
    requires x > 0
    ensures (x * k) / x == k
  {
    var q, r := (x * k) / x, (x * k) % x;
    assert x * k == x * q + r && 0 <= r < x;
    assert x * (k - q) == r;
    if q < k {
      MulAtLeast(x, k - q);
    }
  }

  lemma MulAtLeast(x: nat, d: nat)
    requires d >= 1
    ensures x * d >= x
  {
  }

  lemma DivOfSmaller(n: nat, x: nat)
    requires n < x
    ensures n / x == 0
  {
  }

  /** A palette mask has exactly one channel bit: channel `j` is set in channel `c`'s mask iff `j == c`. */
  lemma ChannelOfMask(p: Palette, c: int, j: int)
    requires ValidPalette(p) && 0 <= c < p.colorCount && 0 <= j < p.colorCount
    ensures ChannelSet(MaskOf(p, c), p.firstBit, j) <==> j == c
  {
    var a: nat, b: nat := p.firstBit + c, p.firstBit + j;
    MaskOfIsBit(p, c);
    ModBelow(b, 32);
    Pow2Bit(a, b);
    assert ChannelSet(MaskOf(p, c), p.firstBit, j) <==> (Pow2(a) / Pow2(b)) % 2 == 1;
  }

  lemma ModBelow(n: int, m: int)
    requires 0 <= n < m
    ensures n % m == n
  {
  }

  /** Bit `b` of `2^a` is set exactly when `a == b`. */
  lemma Pow2Bit(a: nat, b: nat)
    ensures (Pow2(a) / Pow2(b)) % 2 == (if a == b then 1 else 0)
  {
    if a < b {
      Pow2Increasing(a, b);
      DivOfSmaller(Pow2(a), Pow2(b));
      assert Pow2(a) / Pow2(b) == 0;
    } else {
      var x, k := Pow2(b), Pow2(a - b);
      Pow2Add(b, a - b);
      assert Pow2(a) == x * k;
      DivOfMultiple(x, k);
      assert Pow2(a) / x == k;
      if a > b {
        assert k == 2 * Pow2(a - b - 1);
        assert k % 2 == 0;
      } else {
        assert k == 1;
      }
    }
  }

  /** Every mask counts for the gizmo's tally. */
  function AnyMask(): uint32 -> bool {
    (m: uint32) => true
  }

  /**
   * `ReadRoomRenderingLayerMask`: 0 when the room has no live renderer; otherwise a mask that occurs among
   * its live renderers at least as often as any other (which of several such masks is left open).
   */
  method ReadRoomRenderingLayerMask(renderers: seq<int>, rt: RendererTable) returns (m: uint32)
    ensures var ms := Kept(renderers, rt.live, rt.layerMask, AnyMask());
            (|ms| == 0 && m == 0) || (m in ms && forall x :: Occurrences(ms, x) <= Occurrences(ms, m))
  {
    if |renderers| == 0 {
      return 0;
    }
    ghost var ms := Kept(renderers, rt.live, rt.layerMask, AnyMask());
    var counts := CountMasks(renderers, rt.live, rt.layerMask, AnyMask());
    TallyEmpty(counts, ms);
    if |counts| == 0 {
      return 0;
    }
    m := MostFrequent(counts);
    TallyMostFrequent(counts, ms, m);
  }

  /** `Assign` with a static input: with rooms, the greedy colouring, and no cooldown starts. */
  method StaticAssign(service: AssignmentService, input: Input, rt: RendererTable, tt: TransformTable, time: real)
    requires service.Valid() && rt.Valid() && tt.Valid() && !input.DynamicMode()
    requires input.roomsRoot.Some? ==>
               var h := input.roomsRoot.value;
               IsTree(h, input.includeInactiveChildren) && |h.children| <= IntMax &&
               forall i :: 0 <= i < |h.children| ==> 0 <= h.children[i].transform < |tt.position|
    modifies service, rt
    ensures service.Valid() && rt.Valid()
    ensures input.roomsRoot.Some? && |service.roomKeys| > 0 ==>
              |service.bounds| == |service.roomKeys| && WellFormed(service.GraphOf()) &&
              service.StaticAssigned(rt, old(rt.layerMask)) && service.cooldownUntil == old(service.cooldownUntil) &&
              service.writes == old(service.writes) && service.haveLastPlayerPos == old(service.haveLastPlayerPos) &&
              service.lastPlayerPos == old(service.lastPlayerPos) &&
              forall k :: k !in service.roomKeys ==>
                SameEntry(old(service.currentMaskByRoom), service.currentMaskByRoom, k)
  {
    ghost var current0, cooldown0, writes0 := service.currentMaskByRoom, service.cooldownUntil, service.writes;
    ghost var last0, haveLast0, masks0 := service.lastPlayerPos, service.haveLastPlayerPos, rt.layerMask;
    var snapshot, planned := service.Assign(input, rt, tt, time);
    if input.roomsRoot.Some? && |service.roomKeys| > 0 {
      service.StaticOutcome(input, rt.live, rt.bounds, tt.position, time, current0, cooldown0, writes0, last0,
                            haveLast0, masks0, false, rt, snapshot, planned);
    }
  }

  class LayerController {
    /** The serialised settings; the component never changes them while playing. */
    const dynamicMode: bool
    const firstBit: int
    const configuredLightLayers: int
    const minSeparation: real
    const proximityFactor: int
    const includeInactiveChildren: bool
    const radiusIn: real
    const radiusOut: real
    const moveGate: real
    const coolDownSeconds: real
    const tickInterval: real
    var colorCount: int
    var meshRoomsParent: Option<Hierarchy>
    var nextTick: real
    var service: AssignmentService?
    /** The times at which `Update` called `Assign` since `Start`, oldest first. */
    ghost var updateTimes: seq<real>

    /** A service, once there is one, is valid; the assignments `Update` made are a tick interval apart. */
    ghost predicate Valid()
      reads this, service
    {
      (service != null ==> service.Valid()) && TicksSpaced()
    }

    /** The assignments `Update` has made are spaced by the tick interval, and the next one is due a tick after the last. */
    ghost predicate TicksSpaced()
      reads this
    {
      Spaced(updateTimes, Max(0.01, tickInterval)) &&
      (|updateTimes| > 0 ==> nextTick == updateTimes[|updateTimes| - 1] + Max(0.01, tickInterval))
    }

    /** The host's part: the rooms parent, when set, is a tree whose child transforms exist. */
    ghost predicate ParentReady(tt: TransformTable)
      reads this, tt
    {
      meshRoomsParent.Some? ==>
        var h := meshRoomsParent.value;
        IsTree(h, includeInactiveChildren) && |h.children| <= IntMax &&
        forall i :: 0 <= i < |h.children| ==> 0 <= h.children[i].transform < |tt.position|
    }

    /** A component with the given serialised fields, before `Start`. */
    constructor (dynamicMode: bool := true, firstBit: int := 1, colorCount: int := 8,
                 configuredLightLayers: int := 8, minSeparation: real := 5.0, proximityFactor: int := 3,
                 includeInactiveChildren: bool := true, radiusIn: real := 25.0, radiusOut: real := 75.0,
                 moveGate: real := 0.5, coolDownSeconds: real := 0.5, tickInterval: real := 0.1,
                 meshRoomsParent: Option<Hierarchy> := None)
      ensures this.dynamicMode == dynamicMode && this.firstBit == firstBit && this.colorCount == colorCount
      ensures this.configuredLightLayers == configuredLightLayers && this.minSeparation == minSeparation
      ensures this.proximityFactor == proximityFactor && this.includeInactiveChildren == includeInactiveChildren
      ensures this.radiusIn == radiusIn && this.radiusOut == radiusOut && this.moveGate == moveGate
      ensures this.coolDownSeconds == coolDownSeconds && this.tickInterval == tickInterval
      ensures this.meshRoomsParent == meshRoomsParent && service == null && updateTimes == [] && nextTick == 0.0
      ensures Valid()
    {
      this.dynamicMode := dynamicMode;
      this.firstBit := firstBit;
      this.colorCount := colorCount;
      this.configuredLightLayers := configuredLightLayers;
      this.minSeparation := minSeparation;
      this.proximityFactor := proximityFactor;
      this.includeInactiveChildren := includeInactiveChildren;
      this.radiusIn := radiusIn;
      this.radiusOut := radiusOut;
      this.moveGate := moveGate;
      this.coolDownSeconds := coolDownSeconds;
      this.tickInterval := tickInterval;
      this.meshRoomsParent := meshRoomsParent;
      nextTick := 0.0;
      service := null;
      updateTimes := [];
    }

    /**
     * `ClampColorCountToStoredConfig`: the colour count is clamped to at least 1 and at most the bits left
     * above the clamped first bit and the configured layer count; a count already in range is kept.
     */
    method ClampColorCountToStoredConfig()
      modifies this
      ensures 1 <= colorCount <= MaxUsable(firstBit, configuredLightLayers)
      ensures 1 <= old(colorCount) <= MaxUsable(firstBit, configuredLightLayers) ==> colorCount == old(colorCount)
      ensures old(colorCount) < 1 ==> colorCount == 1
      ensures old(colorCount) > MaxUsable(firstBit, configuredLightLayers) ==> colorCount == MaxUsable(firstBit, configuredLightLayers)
      ensures meshRoomsParent == old(meshRoomsParent) && nextTick == old(nextTick) && service == old(service)
      ensures updateTimes == old(updateTimes)
    {
      var first := Clamp(firstBit, 1, 31);
      var bitBudget := MaxInt(0, 32 - first);
      var maxByBits := MaxInt(1, bitBudget);
      var maxByLayers := MaxInt(1, configuredLightLayers);
      var maxUsable := MinInt(maxByBits, maxByLayers);
      colorCount := Clamp(colorCount, 1, maxUsable);
    }

    /** `Start`: clamps the colour count, creates the service with it, and schedules the first tick now. */
    method Start(time: real)
      modifies this
      ensures Valid() && service != null && fresh(service)
      ensures 1 <= colorCount <= MaxUsable(firstBit, configuredLightLayers)
      ensures service.palette == NewPalette(firstBit, colorCount, configuredLightLayers)
      ensures service.palette.colorCount == colorCount && service.palette.firstBit == Clamp(firstBit, 1, 31)
      ensures service.roomKeys == [] && service.currentMaskByRoom == map[] && !service.haveLastPlayerPos
      ensures nextTick == time && meshRoomsParent == old(meshRoomsParent) && updateTimes == []
    {
      ClampColorCountToStoredConfig();
      service := new AssignmentService(firstBit, colorCount, configuredLightLayers);
      ClampAgreesWithService(firstBit, colorCount, configuredLightLayers);
      nextTick := time;
      updateTimes := [];
    }

    /** `EnsureService`: an existing service is kept; otherwise one is created as `Start` does. */
    method EnsureService()
      requires Valid()
      modifies this
      ensures Valid() && service != null
      ensures old(service) != null ==> service == old(service) && colorCount == old(colorCount)
      ensures old(service) == null ==>
                fresh(service) && 1 <= colorCount <= MaxUsable(firstBit, configuredLightLayers) &&
                service.palette == NewPalette(firstBit, colorCount, configuredLightLayers) &&
                service.palette.colorCount == colorCount &&
                service.currentMaskByRoom == map[] && service.cooldownUntil == map[] && service.writes == [] &&
                !service.haveLastPlayerPos && service.lastPlayerPos == Zero
      ensures meshRoomsParent == old(meshRoomsParent) && nextTick == old(nextTick) && updateTimes == old(updateTimes)
    {
      if service == null {
        ClampColorCountToStoredConfig();
        service := new AssignmentService(firstBit, colorCount, configuredLightLayers);
        ClampAgreesWithService(firstBit, colorCount, configuredLightLayers);
      }
    }

    /** Does `Update` at `time` run an assignment? Dynamic mode on, a parent set, and the tick is due. */
    predicate Ticks(time: real)
      reads this
    {
      dynamicMode && meshRoomsParent.Some? && time >= nextTick
    }

    /** The input `Update` builds: the settings, with the component's position as the observer. */
    function UpdateInput(position: Vec3): (r: Input)
      reads this
      ensures r.roomsRoot == meshRoomsParent && r.playerPosition == Some(position) && r.now == HostClock
      ensures r.DynamicMode() <==> radiusIn > 0.0
    {
      NewInput(meshRoomsParent, minSeparation, proximityFactor, includeInactiveChildren, Some(position),
               radiusIn, radiusOut, moveGate, coolDownSeconds)
    }

    /**
     * `Update`: when it ticks, the next tick is set `max(0.01, tickInterval)` later and the service runs an
     * assignment with `UpdateInput` (dynamic when `radiusIn > 0`) from the component's position; otherwise
     * nothing changes. So any two assignments `Update` makes are at least that interval apart. With rooms,
     * the service ends `Assigned` from the state it had before the tick (a new service has no masks, no
     * cooldowns, no writes and no last position, so it is never within the move gate).
     */
    method Update(time: real, position: Vec3, rt: RendererTable, tt: TransformTable)
      returns (ghost snapshot: seq<uint32>, ghost planned: seq<uint32>)
      requires Valid() && rt.Valid() && tt.Valid() && ParentReady(tt)
      modifies this, service, rt
      ensures Valid() && meshRoomsParent == old(meshRoomsParent)
      ensures !old(Ticks(time)) ==> unchanged(this) && unchanged(rt) && (service != null ==> unchanged(service))
      ensures old(Ticks(time)) ==>
                service != null && nextTick == time + Max(0.01, tickInterval) && updateTimes == old(updateTimes) + [time] &&
                (old(service) != null ==> service == old(service)) &&
                service.roomKeys == Transforms(meshRoomsParent.value.children) &&
                rt.live == old(rt.live) && rt.bounds == old(rt.bounds) && rt.enabled == old(rt.enabled)
      ensures old(Ticks(time)) && old(service) != null && |service.roomKeys| > 0 ==>
                service.Assigned(UpdateInput(position), rt.live, rt.bounds, tt.position, time,
                                 old(service.currentMaskByRoom), old(service.cooldownUntil), old(service.writes),
                                 old(service.lastPlayerPos), old(service.haveLastPlayerPos), old(rt.layerMask),
                                 UpdateInput(position).DynamicMode() && old(service.Gated(position, moveGate)),
                                 rt, snapshot, planned)
      ensures old(Ticks(time)) && old(service) == null && |service.roomKeys| > 0 ==>
                service.Assigned(UpdateInput(position), rt.live, rt.bounds, tt.position, time,
                                 map[], map[], [], Zero, false, old(rt.layerMask), false, rt, snapshot, planned)
    {
      snapshot, planned := [], [];
      if !dynamicMode {
        return;
      }
      if meshRoomsParent.None? {
        return;
      }
      if time < nextTick {
        return;
      }
      snapshot, planned := Tick(time, position, rt, tt);
    }

    /** The part of `Update` that runs when it ticks. */
    method Tick(time: real, position: Vec3, rt: RendererTable, tt: TransformTable)
      returns (ghost snapshot: seq<uint32>, ghost planned: seq<uint32>)
      requires Valid() && rt.Valid() && tt.Valid() && ParentReady(tt) && Ticks(time)
      modifies this, service, rt
      ensures Valid() && meshRoomsParent == old(meshRoomsParent)
      ensures service != null && nextTick == time + Max(0.01, tickInterval) && updateTimes == old(updateTimes) + [time] &&
                (old(service) != null ==> service == old(service)) &&
                service.roomKeys == Transforms(meshRoomsParent.value.children) &&
                rt.live == old(rt.live) && rt.bounds == old(rt.bounds) && rt.enabled == old(rt.enabled)
      ensures old(service) != null && |service.roomKeys| > 0 ==>
                service.Assigned(UpdateInput(position), rt.live, rt.bounds, tt.position, time,
                                 old(service.currentMaskByRoom), old(service.cooldownUntil), old(service.writes),
                                 old(service.lastPlayerPos), old(service.haveLastPlayerPos), old(rt.layerMask),
                                 UpdateInput(position).DynamicMode() && old(service.Gated(position, moveGate)),
                                 rt, snapshot, planned)
      ensures old(service) == null && |service.roomKeys| > 0 ==>
                service.Assigned(UpdateInput(position), rt.live, rt.bounds, tt.position, time,
                                 map[], map[], [], Zero, false, old(rt.layerMask), false, rt, snapshot, planned)
    {
      ghost var last := updateTimes;
      nextTick := time + Max(0.01, tickInterval);
      updateTimes := updateTimes + [time];
      EnsureService();
      assert last == updateTimes[..|last|];
      assert TicksSpaced();
      var input := UpdateInput(position);
      snapshot, planned := service.Assign(input, rt, tt, time);
    }

    /** Two assignments made by `Update` since `Start` are at least `max(0.01, tickInterval)` apart. */
    lemma UpdatesAreSpaced(i: int, j: int)
      requires Valid() && 0 <= i < j < |updateTimes|
      ensures updateTimes[j] - updateTimes[i] >= Max(0.01, tickInterval)
    {
      SpacedApart(updateTimes, Max(0.01, tickInterval), i, j);
    }

    /** The input `AssignOnce` builds: the settings, without an observer. */
    function AssignOnceInput(): (r: Input)
      reads this
      ensures !r.DynamicMode() && r.playerPosition.None? && r.now == HostClock
      ensures r.roomsRoot == meshRoomsParent && r.minSeparation == minSeparation && r.proximityFactor == proximityFactor
      ensures r.includeInactiveChildren == includeInactiveChildren
    {
      NewInput(meshRoomsParent, minSeparation, proximityFactor, includeInactiveChildren)
    }

    /**
     * `AssignOnce`: a static assignment. With a parent that has rooms, every room ends with the greedy
     * colouring and no cooldown starts.
     */
    method AssignOnce(rt: RendererTable, tt: TransformTable, time: real)
      requires Valid() && rt.Valid() && tt.Valid() && ParentReady(tt)
      modifies this, service, rt
      ensures Valid() && service != null
      ensures old(service) != null ==> service == old(service)
      ensures meshRoomsParent == old(meshRoomsParent) && nextTick == old(nextTick) && updateTimes == old(updateTimes)
      ensures meshRoomsParent.Some? && |service.roomKeys| > 0 ==>
                |service.bounds| == |service.roomKeys| && WellFormed(service.GraphOf()) &&
                service.StaticAssigned(rt, old(rt.layerMask)) &&
                (old(service) != null ==>
                   service.cooldownUntil == old(service.cooldownUntil) && service.writes == old(service.writes) &&
                   service.haveLastPlayerPos == old(service.haveLastPlayerPos) &&
                   service.lastPlayerPos == old(service.lastPlayerPos) &&
                   forall k :: k !in service.roomKeys ==>
                     SameEntry(old(service.currentMaskByRoom), service.currentMaskByRoom, k)) &&
                (old(service) == null ==>
                   service.cooldownUntil == map[] && service.writes == [] && !service.haveLastPlayerPos &&
                   forall k :: k !in service.roomKeys ==> k !in service.currentMaskByRoom)
    {
      EnsureService();
      StaticAssign(service, AssignOnceInput(), rt, tt, time);
    }

    /** `Initiate`: sets the rooms parent and nothing else. */
    method Initiate(meshRoomsParent: Option<Hierarchy>)
      modifies this
      ensures this.meshRoomsParent == meshRoomsParent
      ensures colorCount == old(colorCount) && nextTick == old(nextTick) && service == old(service)
      ensures updateTimes == old(updateTimes)
    {
      this.meshRoomsParent := meshRoomsParent;
    }
  }
}

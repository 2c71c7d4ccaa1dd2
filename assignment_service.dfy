/**
 * `DynamicLightRenderLayerAssignmentService`: the object that keeps the room list, the conflict graph and the
 * masks it has handed out between calls, and writes masks to the rooms' renderers.
 *
 * A room is a child transform of the rooms parent, identified by its transform id. `held` is the
 * source's `assigned` array.
 */
module ChannelService {
  import opened Wrappers
  import opened Geometry
  import opened Masks
  import opened Sorting
  import opened Scene
  import opened Coloring
  import opened Tally
  import opened Passes
  import opened AssignmentInput

  /** What `_rooms` stores for a room: its mesh renderers and lights. */
  datatype RoomLists = RoomLists(renderers: seq<int>, lights: seq<int>)

  /** `_rooms` after the loop of `CollectRooms`: a later child with the same transform replaces an earlier one. */
  function RoomsOf(children: seq<ChildNode>, includeInactive: bool): (r: map<int, RoomLists>)
    ensures r.Keys == set i | 0 <= i < |children| :: children[i].transform
  {
    if |children| == 0 then map[]
    else
      var c := children[|children| - 1];
      var found := Found(c, includeInactive);
      RoomsOf(children[..|children| - 1], includeInactive)[c.transform := RoomLists(found.renderers, found.lights)]
  }

  /** With distinct child transforms every room holds exactly what its own search found. */
  lemma {:induction false} RoomsOfDistinct(children: seq<ChildNode>, includeInactive: bool, i: int)
    requires 0 <= i < |children|
    requires forall a, b :: 0 <= a < b < |children| ==> children[a].transform != children[b].transform
    ensures var found := Found(children[i], includeInactive);
            RoomsOf(children, includeInactive)[children[i].transform] == RoomLists(found.renderers, found.lights)
  {
    if i < |children| - 1 {
      RoomsOfDistinct(children[..|children| - 1], includeInactive, i);
    }
  }

  /** The transform ids of the children, in child order (`_roomKeys`). */
  function Transforms(children: seq<ChildNode>): (r: seq<int>)
    ensures |r| == |children| && forall i :: 0 <= i < |children| ==> r[i] == children[i].transform
  {
    seq(|children|, i requires 0 <= i < |children| => children[i].transform)
  }

  /** One more child of the loop: its transform is appended to the keys and its lists are stored under it. */
  lemma RoomsOfStep(children: seq<ChildNode>, includeInactive: bool, i: int)
    requires 0 <= i < |children|
    ensures var found := Found(children[i], includeInactive);
            RoomsOf(children[..i + 1], includeInactive) ==
              RoomsOf(children[..i], includeInactive)[children[i].transform := RoomLists(found.renderers, found.lights)]
    ensures Transforms(children[..i + 1]) == Transforms(children[..i]) + [children[i].transform]
  {
    assert children[..i + 1][..i] == children[..i];
  }

  /** The rooms of a tree: distinct keys, each with its own child's lists, no renderer in two rooms. */
  lemma CollectedRooms(h: Hierarchy, includeInactive: bool)
    requires IsTree(h, includeInactive)
    ensures var keys := Transforms(h.children);
            var rooms := RoomsOf(h.children, includeInactive);
            Distinct(keys) &&
            (forall i :: 0 <= i < |keys| ==>
               keys[i] in rooms &&
               rooms[keys[i]] == RoomLists(Found(h.children[i], includeInactive).renderers,
                                           Found(h.children[i], includeInactive).lights)) &&
            (forall i, j :: 0 <= i < j < |keys| ==> Disjoint(rooms[keys[i]].renderers, rooms[keys[j]].renderers))
  {
    var keys := Transforms(h.children);
    var rooms := RoomsOf(h.children, includeInactive);
    forall i | 0 <= i < |keys|
      ensures keys[i] in rooms &&
              rooms[keys[i]] == RoomLists(Found(h.children[i], includeInactive).renderers,
                                          Found(h.children[i], includeInactive).lights)
    {
      RoomsOfDistinct(h.children, includeInactive, i);
    }
  }

  /**
   * `ComputeBounds` for one room: the accumulated bounds of its live renderers; without one, the bounds of
   * the box collider found below the room; without that, a box of size 0.01 around the room's position.
   */
  function RoomBox(renderers: seq<int>, live: seq<bool>, boxes: seq<Bounds>, collider: Option<Bounds>,
                   position: Vec3): Bounds
  {
    var found := LiveBounds(renderers, live, boxes);
    if |found| > 0 then Hull(found)
    else if collider.Some? then collider.value
    else BoundsAround(position, Vec3(0.01, 0.01, 0.01))
  }

  /**
   * A room with a live renderer gets the least box covering all its live renderers; otherwise the
   * collider's box if there is one, and otherwise a box centred on the room's position.
   */
  lemma RoomBoxFallbacks(renderers: seq<int>, live: seq<bool>, boxes: seq<Bounds>, collider: Option<Bounds>,
                         position: Vec3)
    ensures var b := RoomBox(renderers, live, boxes, collider, position);
            var found := LiveBounds(renderers, live, boxes);
            (forall k :: 0 <= k < |found| ==> Contains(b, found[k])) &&
            (|found| > 0 ==> forall c :: (forall k :: 0 <= k < |found| ==> Contains(c, found[k])) ==> Contains(c, b)) &&
            (|found| == 0 && collider.Some? ==> b == collider.value) &&
            (|found| == 0 && collider.None? ==> Center(b) == position)
  {
    var found := LiveBounds(renderers, live, boxes);
    if |found| > 0 {
      forall k | 0 <= k < |found| {
        HullCovers(found, k);
      }
      forall c | forall k :: 0 <= k < |found| ==> Contains(c, found[k]) {
        HullIsLeast(found, c);
      }
    }
  }

  /** The loop of `ComputeBounds` for one room, then the collider and position fallbacks. */
  method RoomBounds(renderers: seq<int>, rt: RendererTable, collider: Option<Bounds>, position: Vec3)
    returns (b: Bounds)
    ensures b == RoomBox(renderers, rt.live, rt.bounds, collider, position)
  {
    var has;
    has, b := AccumulateBounds(renderers, rt);
    if !has {
      if collider.Some? {
        b := collider.value;
        has := true;
      }
    }
    if !has {
      b := BoundsAround(position, Vec3(0.01, 0.01, 0.01));
    }
  }

  /** A write `ApplyDeltas` made: the room, the mask, the time and the end of the cooldown it started. */
  datatype Write = Write(room: int, mask: uint32, at: real, until: real)

  /**
   * The cooldown discipline over the history of writes: a room is written again only once the cooldown of
   * its previous write is over; each cooldown lasts at least 0.01 and is remembered in `cooldownUntil`;
   * no write is of mask 0.
   */
  ghost predicate Disciplined(writes: seq<Write>, cooldownUntil: map<int, real>) {
    (forall i, j :: 0 <= i < j < |writes| && writes[i].room == writes[j].room ==> writes[j].at >= writes[i].until) &&
    (forall i :: 0 <= i < |writes| ==>
       writes[i].mask != 0 && writes[i].until >= writes[i].at + 0.01 &&
       writes[i].room in cooldownUntil && cooldownUntil[writes[i].room] >= writes[i].until)
  }

  /** Two writes of one room are at least the first one's cooldown, and so at least 0.01, apart. */
  lemma WritesAreSpaced(writes: seq<Write>, cooldownUntil: map<int, real>, i: int, j: int)
    requires Disciplined(writes, cooldownUntil)
    requires 0 <= i < j < |writes| && writes[i].room == writes[j].room
    ensures writes[j].at - writes[i].at >= writes[i].until - writes[i].at >= 0.01
  {
  }

  /** The end of the cooldown a write at `now` starts: `now + Mathf.Max(0.01f, coolDownSeconds)`. */
  function CooldownEnd(now: real, coolDownSeconds: real): (r: real)
    ensures r >= now + 0.01 && r >= now + coolDownSeconds
  {
    now + Max(0.01, coolDownSeconds)
  }

  /**
   * What `SnapshotCurrent` takes for room `key`: the stored mask when it is one of the palette's; otherwise
   * a most common palette mask among the room's live renderers, or 0 when none has one.
   */
  ghost predicate IsSnapshot(p: Palette, stored: map<int, uint32>, key: int, renderers: seq<int>, live: seq<bool>,
                             masks: seq<uint32>, m: uint32)
  {
    if key in stored && IsAllowedMask(p, stored[key]) then m == stored[key]
    else
      var ms := Kept(renderers, live, masks, AllowedFilter(p));
      (|ms| == 0 && m == 0) || (m in ms && forall x :: Occurrences(ms, x) <= Occurrences(ms, m))
  }

  /**
   * One room of `SnapshotCurrent`: its stored mask when that is allowed, otherwise the most common allowed
   * mask among its live renderers, or 0 when it has none.
   */
  method SnapshotRoom(p: Palette, stored: map<int, uint32>, key: int, renderers: seq<int>, rt: RendererTable)
    returns (m: uint32)
    ensures m == 0 || IsAllowedMask(p, m)
    ensures IsSnapshot(p, stored, key, renderers, rt.live, rt.layerMask, m)
  {
    if key in stored && IsAllowedMask(p, stored[key]) {
      return stored[key];
    }
    ghost var ms := Kept(renderers, rt.live, rt.layerMask, AllowedFilter(p));
    var counts := CountMasks(renderers, rt.live, rt.layerMask, AllowedFilter(p));
    TallyEmpty(counts, ms);
    KeptPass(renderers, rt.live, rt.layerMask, AllowedFilter(p));
    m := 0;
    if |counts| > 0 {
      m := MostFrequent(counts);
      TallyMostFrequent(counts, ms, m);
      assert IsAllowedMask(p, m);
    }
  }

  /**
   * The rooms, bounds and conflict graph `Assign` rebuilds from the children of `h`: one room per child,
   * in child order, each with its `RoomBox`, and conflicts between boxes closer than `minSeparation`.
   */
  ghost predicate RoomsRebuilt(h: Hierarchy, includeInactive: bool, minSeparation: real, proximity: int,
                               live: seq<bool>, boxes: seq<Bounds>, positions: seq<Vec3>,
                               rooms: map<int, RoomLists>, roomKeys: seq<int>, g: Graph)
  {
    roomKeys == Transforms(h.children) && rooms == RoomsOf(h.children, includeInactive) &&
    |g.bounds| == |roomKeys| &&
    (forall i :: 0 <= i < |roomKeys| ==>
       0 <= roomKeys[i] < |positions| &&
       g.bounds[i] == RoomBox(rooms[roomKeys[i]].renderers, live, boxes, Found(h.children[i], includeInactive).collider,
                              positions[roomKeys[i]])) &&
    g.conflicts == ConflictLists(g.bounds, minSeparation) &&
    g.minSeparationUsed == Max(0.0, minSeparation) && g.proximityFactor == Max(0.0, proximity as real)
  }

  class AssignmentService {
    const palette: Palette
    var rooms: map<int, RoomLists>
    var roomKeys: seq<int>
    var bounds: seq<Bounds>
    var conflicts: seq<seq<int>>
    var minSeparationUsed: real
    var proximityFactor: real
    var cooldownUntil: map<int, real>
    var currentMaskByRoom: map<int, uint32>
    var haveLastPlayerPos: bool
    var lastPlayerPos: Vec3
    /** The writes `ApplyDeltas` has made, oldest first. */
    ghost var writes: seq<Write>

    /**
     * The palette is valid; every room key has its lists; the keys are distinct and no renderer belongs to
     * two rooms (the rooms are distinct children of one parent); the cooldown discipline holds.
     */
    ghost predicate Valid()
      reads this
    {
      ValidPalette(palette) &&
      (forall i :: 0 <= i < |roomKeys| ==> roomKeys[i] in rooms) &&
      Distinct(roomKeys) && |roomKeys| <= IntMax &&
      (forall i, j :: 0 <= i < j < |roomKeys| ==> Disjoint(rooms[roomKeys[i]].renderers, rooms[roomKeys[j]].renderers)) &&
      Disciplined(writes, cooldownUntil)
    }

    /** The graph the passes read. */
    function GraphOf(): Graph
      reads this
    {
      Graph(palette, bounds, conflicts, minSeparationUsed, proximityFactor)
    }

    /** The mask the service believes room `key` holds: `_currentMaskByRoom.TryGetValue`, 0 when absent. */
    function CurrentOf(key: int): uint32
      reads this
    {
      if key in currentMaskByRoom then currentMaskByRoom[key] else 0
    }

    /** The masks handed out so far, the cooldowns and the last observer position are as before. */
    twostate predicate KeepsAssignment()
      reads this
    {
      currentMaskByRoom == old(currentMaskByRoom) && cooldownUntil == old(cooldownUntil) &&
      haveLastPlayerPos == old(haveLastPlayerPos) && lastPlayerPos == old(lastPlayerPos) && writes == old(writes)
    }

    /** The clamps of the constructor fix the palette; the service starts with no rooms and no history. */
    constructor (firstBit: int, colorCount: int, configuredLightLayers: int)
      ensures palette == NewPalette(firstBit, colorCount, configuredLightLayers)
      ensures rooms == map[] && roomKeys == [] && bounds == [] && conflicts == []
      ensures minSeparationUsed == 0.0 && proximityFactor == 1.5
      ensures cooldownUntil == map[] && currentMaskByRoom == map[] && !haveLastPlayerPos && lastPlayerPos == Zero
      ensures writes == []
      ensures Valid()
    {
      palette := NewPalette(firstBit, colorCount, configuredLightLayers);
      rooms := map[];
      roomKeys := [];
      bounds := [];
      conflicts := [];
      minSeparationUsed := 0.0;
      proximityFactor := 1.5;
      cooldownUntil := map[];
      currentMaskByRoom := map[];
      haveLastPlayerPos := false;
      lastPlayerPos := Zero;
      writes := [];
    }

    /** `CollectRooms`: forgets the previous rooms and lists every child of the parent, in child order. */
    method CollectRooms(h: Hierarchy, includeInactive: bool)
      requires Valid() && IsTree(h, includeInactive) && |h.children| <= IntMax
      modifies this
      ensures Valid() && KeepsAssignment()
      ensures roomKeys == Transforms(h.children) && rooms == RoomsOf(h.children, includeInactive)
      ensures bounds == old(bounds) && conflicts == old(conflicts)
      ensures minSeparationUsed == old(minSeparationUsed) && proximityFactor == old(proximityFactor)
      ensures forall i :: 0 <= i < |roomKeys| ==>
                rooms[roomKeys[i]] == RoomLists(Found(h.children[i], includeInactive).renderers,
                                                Found(h.children[i], includeInactive).lights)
    {
      rooms := map[];
      roomKeys := [];
      var i := 0;
      while i < |h.children|
        invariant 0 <= i <= |h.children|
        invariant roomKeys == Transforms(h.children[..i]) && rooms == RoomsOf(h.children[..i], includeInactive)
        invariant KeepsAssignment() && bounds == old(bounds) && conflicts == old(conflicts)
        invariant minSeparationUsed == old(minSeparationUsed) && proximityFactor == old(proximityFactor)
      {
        var child := h.children[i];
        var found := Found(child, includeInactive);
        RoomsOfStep(h.children, includeInactive, i);
        rooms := rooms[child.transform := RoomLists(found.renderers, found.lights)];
        roomKeys := roomKeys + [child.transform];
        i := i + 1;
      }
      assert h.children[..|h.children|] == h.children;
      CollectedRooms(h, includeInactive);
    }

    /**
     * `ComputeBounds`: room `i` gets `RoomBox` of its renderers, of the collider `colliders[i]` the search of
     * its child finds, and of its transform's position.
     */
    method ComputeBounds(colliders: seq<Option<Bounds>>, rt: RendererTable, tt: TransformTable)
      requires Valid() && rt.Valid() && tt.Valid()
      requires |colliders| == |roomKeys| && forall i :: 0 <= i < |roomKeys| ==> 0 <= roomKeys[i] < |tt.position|
      modifies this
      ensures Valid() && KeepsAssignment()
      ensures rooms == old(rooms) && roomKeys == old(roomKeys) && conflicts == old(conflicts)
      ensures minSeparationUsed == old(minSeparationUsed) && proximityFactor == old(proximityFactor)
      ensures |bounds| == |roomKeys|
      ensures forall i :: 0 <= i < |roomKeys| ==>
                bounds[i] == RoomBox(rooms[roomKeys[i]].renderers, rt.live, rt.bounds, colliders[i],
                                     tt.position[roomKeys[i]])
    {
      var n := |roomKeys|;
      var result: seq<Bounds> := [];
      var i := 0;
      while i < n
        invariant 0 <= i <= n && |result| == i
        invariant unchanged(this)
        invariant forall k :: 0 <= k < i ==>
                    result[k] == RoomBox(rooms[roomKeys[k]].renderers, rt.live, rt.bounds, colliders[k],
                                         tt.position[roomKeys[k]])
      {
        var b := RoomBounds(rooms[roomKeys[i]].renderers, rt, colliders[i], tt.position[roomKeys[i]]);
        result := result + [b];
        i := i + 1;
      }
      bounds := result;
    }

    /**
     * `BuildConflictGraph`: the separations are clamped to at least 0, and two rooms conflict when their
     * boxes are closer than the unclamped `minSeparation`. The graph is symmetric and irreflexive.
     */
    method BuildConflictGraph(minSeparation: real, proximity: int)
      requires Valid() && |bounds| == |roomKeys|
      modifies this
      ensures Valid() && KeepsAssignment()
      ensures rooms == old(rooms) && roomKeys == old(roomKeys) && bounds == old(bounds)
      ensures minSeparationUsed == Max(0.0, minSeparation) && proximityFactor == Max(0.0, proximity as real)
      ensures conflicts == ConflictLists(bounds, minSeparation)
      ensures WellFormed(GraphOf()) && SymmetricIrreflexive(GraphOf())
    {
      minSeparationUsed := Max(0.0, minSeparation);
      proximityFactor := Max(0.0, proximity as real);
      conflicts := BuildConflictLists(bounds, minSeparation);
      BuiltGraphIsSymmetric(GraphOf(), minSeparation);
    }

    /** `ApplyRenderLayerMask`: every live renderer of room `i` gets `mask`; no other renderer changes. */
    method ApplyRenderLayerMask(i: int, mask: uint32, rt: RendererTable)
      requires Valid() && 0 <= i < |roomKeys| && rt.Valid()
      modifies rt
      ensures rt.Valid() && rt.live == old(rt.live) && rt.bounds == old(rt.bounds) && rt.enabled == old(rt.enabled)
      ensures |rt.layerMask| == |old(rt.layerMask)|
      ensures forall r :: 0 <= r < |rt.layerMask| ==>
                rt.layerMask[r] == if r in rooms[roomKeys[i]].renderers && rt.live[r] then mask else old(rt.layerMask[r])
    {
      var renderers := rooms[roomKeys[i]].renderers;
      var k := 0;
      while k < |renderers|
        invariant 0 <= k <= |renderers|
        invariant rt.Valid() && rt.live == old(rt.live) && rt.bounds == old(rt.bounds) && rt.enabled == old(rt.enabled)
        invariant |rt.layerMask| == |old(rt.layerMask)|
        invariant forall r :: 0 <= r < |rt.layerMask| ==>
                    rt.layerMask[r] == if r in renderers[..k] && rt.live[r] then mask else old(rt.layerMask[r])
      {
        var r := renderers[k];
        if rt.IsLive(r) {
          rt.layerMask := rt.layerMask[r := mask];
        }
        assert renderers[..k + 1] == renderers[..k] + [r];
        k := k + 1;
      }
      assert renderers[..|renderers|] == renderers;
    }

    /**
     * `GlobalAssign`, the static mode: the greedy colouring in a degree order, written to every room,
     * 0 included. Conflicting rooms that both hold a mask hold different ones.
     */
    method GlobalAssign(rt: RendererTable)
      requires Valid() && rt.Valid() && |bounds| == |roomKeys|
      requires WellFormed(GraphOf()) && SymmetricIrreflexive(GraphOf())
      modifies this, rt
      ensures Valid()
      ensures rooms == old(rooms) && roomKeys == old(roomKeys) && bounds == old(bounds) && conflicts == old(conflicts)
      ensures minSeparationUsed == old(minSeparationUsed) && proximityFactor == old(proximityFactor)
      ensures cooldownUntil == old(cooldownUntil) && writes == old(writes)
      ensures haveLastPlayerPos == old(haveLastPlayerPos) && lastPlayerPos == old(lastPlayerPos)
      ensures StaticAssigned(rt, old(rt.layerMask))
      ensures forall k :: k !in roomKeys ==> SameEntry(old(currentMaskByRoom), currentMaskByRoom, k)
      ensures rt.Valid() && rt.live == old(rt.live) && rt.bounds == old(rt.bounds) && rt.enabled == old(rt.enabled)
    {
      var g := GraphOf();
      var order := OrderByDegree(g);
      var held := GreedyColouring(g, order);
      GreedySafe(g, order);
      ghost var before := rt.layerMask;
      ghost var current0 := currentMaskByRoom;
      WriteAll(held, rt);
      WrittenRoomByRoom(held, rt, before, current0);
      assert StaticColouredIn(rt, before, order);
    }

    /**
     * After writing `held` room by room: each live renderer of a room has that room's mask, and a renderer
     * of no room keeps `before`.
     */
    ghost predicate RoomMasksWritten(held: seq<uint32>, rt: RendererTable, before: seq<uint32>)
      reads this, rt
      requires Valid() && |held| == |roomKeys|
    {
      |rt.layerMask| == |before| &&
      (forall i, r :: 0 <= i < |roomKeys| && 0 <= r < |rt.layerMask| && r in rooms[roomKeys[i]].renderers &&
                      r < |rt.live| && rt.live[r] ==>
         rt.layerMask[r] == held[i]) &&
      (forall r :: 0 <= r < |rt.layerMask| &&
                   (r >= |rt.live| || !rt.live[r] || forall i :: 0 <= i < |roomKeys| ==> r !in rooms[roomKeys[i]].renderers) ==>
         rt.layerMask[r] == before[r])
    }

    /** The second loop of `GlobalAssign`: every room's renderers get its mask, and the service records it. */
    method WriteAll(held: seq<uint32>, rt: RendererTable)
      requires Valid() && rt.Valid() && |held| == |roomKeys|
      modifies this, rt
      ensures Valid()
      ensures rooms == old(rooms) && roomKeys == old(roomKeys) && bounds == old(bounds) && conflicts == old(conflicts)
      ensures minSeparationUsed == old(minSeparationUsed) && proximityFactor == old(proximityFactor)
      ensures cooldownUntil == old(cooldownUntil) && writes == old(writes)
      ensures haveLastPlayerPos == old(haveLastPlayerPos) && lastPlayerPos == old(lastPlayerPos)
      ensures currentMaskByRoom == Recorded(old(currentMaskByRoom), roomKeys, held, |roomKeys|)
      ensures rt.Valid() && rt.live == old(rt.live) && rt.bounds == old(rt.bounds) && rt.enabled == old(rt.enabled)
      ensures |rt.layerMask| == |old(rt.layerMask)|
      ensures forall r :: 0 <= r < |rt.layerMask| ==>
                rt.layerMask[r] == MaskAfter(RendererLists(rooms, roomKeys), held, rt.live, old(rt.layerMask)[r], |roomKeys|, r)
    {
      var i := 0;
      while i < |roomKeys|
        invariant 0 <= i <= |roomKeys|
        invariant rooms == old(rooms) && roomKeys == old(roomKeys) && bounds == old(bounds) && conflicts == old(conflicts)
        invariant minSeparationUsed == old(minSeparationUsed) && proximityFactor == old(proximityFactor)
        invariant cooldownUntil == old(cooldownUntil) && writes == old(writes)
        invariant haveLastPlayerPos == old(haveLastPlayerPos) && lastPlayerPos == old(lastPlayerPos)
        invariant currentMaskByRoom == Recorded(old(currentMaskByRoom), roomKeys, held, i)
        invariant rt.Valid() && rt.live == old(rt.live) && rt.bounds == old(rt.bounds) && rt.enabled == old(rt.enabled)
        invariant |rt.layerMask| == |old(rt.layerMask)|
        invariant forall r :: 0 <= r < |rt.layerMask| ==>
                    rt.layerMask[r] == MaskAfter(RendererLists(rooms, roomKeys), held, rt.live, old(rt.layerMask)[r], i, r)
      {
        ApplyRenderLayerMask(i, held[i], rt);
        currentMaskByRoom := currentMaskByRoom[roomKeys[i] := held[i]];
        i := i + 1;
      }
    }

    /** What `WriteAll` leaves, room by room, given that keys are distinct and rooms share no renderer. */
    lemma WrittenRoomByRoom(held: seq<uint32>, rt: RendererTable, before: seq<uint32>, current0: map<int, uint32>)
      requires Valid() && |held| == |roomKeys| && |rt.layerMask| == |before|
      requires currentMaskByRoom == Recorded(current0, roomKeys, held, |roomKeys|)
      requires forall r :: 0 <= r < |rt.layerMask| ==>
                 rt.layerMask[r] == MaskAfter(RendererLists(rooms, roomKeys), held, rt.live, before[r], |roomKeys|, r)
      ensures RoomMasksWritten(held, rt, before)
      ensures forall i :: 0 <= i < |roomKeys| ==> roomKeys[i] in currentMaskByRoom && currentMaskByRoom[roomKeys[i]] == held[i]
      ensures forall k :: k !in roomKeys ==> (k in currentMaskByRoom <==> k in current0)
      ensures forall k :: k !in roomKeys && k in currentMaskByRoom ==> currentMaskByRoom[k] == current0[k]
    {
      var lists := RendererLists(rooms, roomKeys);
      forall r | 0 <= r < |rt.layerMask| {
        MaskAfterDisjoint(lists, held, rt.live, before[r], |roomKeys|, r);
      }
      RecordedDistinct(current0, roomKeys, held, |roomKeys|);
      assert roomKeys[..|roomKeys|] == roomKeys;
    }

    /** `SnapshotCurrent`: the masks the rooms hold now, each 0 or one of the palette's. */
    method SnapshotCurrent(rt: RendererTable) returns (held: seq<uint32>)
      requires Valid() && rt.Valid()
      ensures |held| == |roomKeys| && ZeroOrAllowed(palette, held)
      ensures forall i :: 0 <= i < |roomKeys| ==> IsSnapshot(palette, currentMaskByRoom, roomKeys[i], rooms[roomKeys[i]].renderers, rt.live, rt.layerMask, held[i])
    {
      held := [];
      var i := 0;
      while i < |roomKeys|
        invariant 0 <= i <= |roomKeys| && |held| == i
        invariant ZeroOrAllowed(palette, held)
        invariant forall k :: 0 <= k < i ==> IsSnapshot(palette, currentMaskByRoom, roomKeys[k], rooms[roomKeys[k]].renderers, rt.live, rt.layerMask, held[k])
      {
        var key := roomKeys[i];
        var m := SnapshotRoom(palette, currentMaskByRoom, key, rooms[key].renderers, rt);
        held := held + [m];
        i := i + 1;
      }
    }

    /**
     * `ApplyDeltas`: each room whose delta is due gets its mask written to its live renderers and recorded,
     * and starts a cooldown; every other room and renderer is left as it was. The cooldown discipline
     * holds afterwards, and no room that held a mask is set back to 0.
     */
    method ApplyDeltas(held: seq<uint32>, now: real, coolDownSeconds: real, rt: RendererTable)
      requires Valid() && rt.Valid() && |held| == |roomKeys|
      modifies this, rt
      ensures Valid()
      ensures rooms == old(rooms) && roomKeys == old(roomKeys) && bounds == old(bounds) && conflicts == old(conflicts)
      ensures minSeparationUsed == old(minSeparationUsed) && proximityFactor == old(proximityFactor)
      ensures haveLastPlayerPos == old(haveLastPlayerPos) && lastPlayerPos == old(lastPlayerPos)
      ensures DeltasApplied(old(currentMaskByRoom), old(cooldownUntil), currentMaskByRoom, cooldownUntil, roomKeys, held, now,
                            coolDownSeconds)
      ensures writes == old(writes) + DueWrites(old(currentMaskByRoom), old(cooldownUntil), roomKeys, held, now, coolDownSeconds, |roomKeys|)
      ensures rt.Valid() && rt.live == old(rt.live) && rt.bounds == old(rt.bounds) && rt.enabled == old(rt.enabled)
      ensures MasksWritten(RendererLists(rooms, roomKeys), held,
                           DueFlags(old(currentMaskByRoom), old(cooldownUntil), roomKeys, held, now), rt.live, rt.layerMask,
                           old(rt.layerMask))
    {
      ghost var cur0 := currentMaskByRoom;
      ghost var cool0 := cooldownUntil;
      ghost var before := rt.layerMask;
      WriteDue(held, now, coolDownSeconds, rt);
      AppliedOutcome(cur0, cool0, roomKeys, held, now, coolDownSeconds);
      DueMasksWritten(RendererLists(rooms, roomKeys), held, DueFlags(cur0, cool0, roomKeys, held, now), rt.live,
                      rt.layerMask, before);
    }

    /** The observer is within the move gate of the last recompute: a dynamic `Assign` does nothing. */
    predicate Gated(pos: Vec3, moveGate: real)
      reads this
    {
      haveLastPlayerPos && SqrMagnitude(Sub(pos, lastPlayerPos)) < moveGate * moveGate
    }

    /**
     * Every room got and recorded the greedy colouring in `order`, which lists the rooms by non-increasing
     * degree.
     */
    ghost predicate StaticColouredIn(rt: RendererTable, before: seq<uint32>, order: seq<int>)
      reads this, rt
      requires Valid() && |bounds| == |roomKeys|
      requires WellFormed(GraphOf())
    {
      DegreeOrder(GraphOf(), order) &&
      var held := Greedy(GraphOf(), order);
      ZeroOrAllowed(palette, held) && ProperlyColoured(GraphOf(), held) &&
      (forall i :: 0 <= i < |roomKeys| ==> roomKeys[i] in currentMaskByRoom && currentMaskByRoom[roomKeys[i]] == held[i]) &&
      RoomMasksWritten(held, rt, before)
    }

    /**
     * After the static mode: every room got and recorded the greedy colouring in SOME degree order.
     * `List.Sort` is unstable, so which order rooms of equal degree take is left open.
     */
    ghost predicate StaticAssigned(rt: RendererTable, before: seq<uint32>)
      reads this, rt
      requires Valid() && |bounds| == |roomKeys|
      requires WellFormed(GraphOf())
    {
      exists order :: StaticColouredIn(rt, before, order)
    }

    /**
     * Whichever degree order the unstable sort left, the static masks every room recorded come from the
     * palette, and two conflicting rooms that both hold a mask hold different ones.
     */
    lemma StaticRecordedProper(rt: RendererTable, before: seq<uint32>)
      requires Valid() && |bounds| == |roomKeys| && WellFormed(GraphOf())
      requires StaticAssigned(rt, before)
      ensures forall i :: 0 <= i < |roomKeys| ==> roomKeys[i] in currentMaskByRoom
      ensures forall i :: 0 <= i < |roomKeys| ==>
                currentMaskByRoom[roomKeys[i]] == 0 || IsAllowedMask(palette, currentMaskByRoom[roomKeys[i]])
      ensures forall a, b ::
                0 <= a < |roomKeys| && b in conflicts[a] &&
                currentMaskByRoom[roomKeys[a]] != 0 && currentMaskByRoom[roomKeys[b]] != 0
                ==> currentMaskByRoom[roomKeys[a]] != currentMaskByRoom[roomKeys[b]]
    {
      var order :| StaticColouredIn(rt, before, order);
      var held := Greedy(GraphOf(), order);
      forall a, b | 0 <= a < |roomKeys| && b in conflicts[a] &&
                    currentMaskByRoom[roomKeys[a]] != 0 && currentMaskByRoom[roomKeys[b]] != 0
        ensures currentMaskByRoom[roomKeys[a]] != currentMaskByRoom[roomKeys[b]]
      {
        assert held[a] != held[b];
      }
    }

    /**
     * After a dynamic recompute from the state `current0, cooldown0, writes0, masks0`: the snapshot is what
     * the rooms held; the passes took it to `planned`, its `PlanAfter`; the due deltas were applied;
     * the observer position is remembered.
     */
    ghost predicate Recomputed(pos: Vec3, radiusIn: real, radiusOut: real, now: real, coolDownSeconds: real,
                               current0: map<int, uint32>, cooldown0: map<int, real>, writes0: seq<Write>,
                               masks0: seq<uint32>, rt: RendererTable, snapshot: seq<uint32>, planned: seq<uint32>)
      reads this, rt
      requires Valid()
      requires WellFormed(GraphOf())
    {
      haveLastPlayerPos && lastPlayerPos == pos &&
      RecomputeOutcome(GraphOf(), rooms, roomKeys, currentMaskByRoom, cooldownUntil, writes, rt.live, rt.layerMask,
                       pos, radiusIn, radiusOut, now, coolDownSeconds, current0, cooldown0, writes0, masks0, snapshot, planned)
    }

    /**
     * What `Assign` leaves once it has found rooms below `input.roomsRoot`, from the state `current0,
     * cooldown0, writes0, last0, haveLast0, masks0` and with `gated` telling whether that state was within
     * the move gate: the rooms, bounds and graph are rebuilt; static mode leaves the greedy colouring, no
     * new cooldown or write, the remembered observer and the entries of keys that are no room; a gated
     * dynamic call changes no mask; any other dynamic call is a recompute.
     */
    ghost predicate Assigned(input: Input, live: seq<bool>, boxes: seq<Bounds>, positions: seq<Vec3>, hostTime: real,
                             current0: map<int, uint32>, cooldown0: map<int, real>, writes0: seq<Write>, last0: Vec3,
                             haveLast0: bool, masks0: seq<uint32>, gated: bool, rt: RendererTable, snapshot: seq<uint32>,
                             planned: seq<uint32>)
      reads this, rt
      requires Valid() && input.roomsRoot.Some?
    {
      RoomsRebuilt(input.roomsRoot.value, input.includeInactiveChildren, input.minSeparation, input.proximityFactor,
                   live, boxes, positions, rooms, roomKeys, GraphOf()) &&
      WellFormed(GraphOf()) && SymmetricIrreflexive(GraphOf()) &&
      (!input.DynamicMode() ==>
         StaticAssigned(rt, masks0) && cooldownUntil == cooldown0 && writes == writes0 &&
         haveLastPlayerPos == haveLast0 && lastPlayerPos == last0 &&
         (forall k :: k !in roomKeys ==> SameEntry(current0, currentMaskByRoom, k))) &&
      (input.DynamicMode() && gated ==>
         currentMaskByRoom == current0 && cooldownUntil == cooldown0 && writes == writes0 &&
         haveLastPlayerPos && lastPlayerPos == last0 && rt.layerMask == masks0) &&
      (input.DynamicMode() && !gated ==>
         Recomputed(input.playerPosition.value, input.radiusIn, input.radiusOut, NowOf(input, hostTime),
                    input.coolDownSeconds, current0, cooldown0, writes0, masks0, rt, snapshot, planned))
    }

    /**
     * In static mode an `Assigned` outcome is the greedy colouring; no cooldown or write starts, and the
     * remembered observer and the entries of keys that are no room are kept.
     */
    lemma StaticOutcome(input: Input, live: seq<bool>, boxes: seq<Bounds>, positions: seq<Vec3>, hostTime: real,
                        current0: map<int, uint32>, cooldown0: map<int, real>, writes0: seq<Write>, last0: Vec3,
                        haveLast0: bool, masks0: seq<uint32>, gated: bool, rt: RendererTable, snapshot: seq<uint32>,
                        planned: seq<uint32>)
      requires Valid() && input.roomsRoot.Some? && !input.DynamicMode()
      requires Assigned(input, live, boxes, positions, hostTime, current0, cooldown0, writes0, last0, haveLast0, masks0,
                        gated, rt, snapshot, planned)
      ensures |bounds| == |roomKeys| && WellFormed(GraphOf())
      ensures StaticAssigned(rt, masks0) && cooldownUntil == cooldown0 && writes == writes0
      ensures haveLastPlayerPos == haveLast0 && lastPlayerPos == last0
      ensures forall k :: k !in roomKeys ==> SameEntry(current0, currentMaskByRoom, k)
    {
    }

    /**
     * `Assign`. Without a rooms parent nothing changes. Otherwise the rooms are collected again; with no
     * room nothing else changes. With rooms, the result is `Assigned`: the bounds and the conflict graph are
     * rebuilt; then in static mode every room gets the greedy colouring, and in dynamic mode, unless the
     * observer is within the move gate of the last recompute, the three passes run from the current masks
     * (`snapshot`) to `planned` (the source's `assigned`), the due deltas are applied, and the observer
     * position is remembered.
     */
    method Assign(input: Input, rt: RendererTable, tt: TransformTable, hostTime: real)
      returns (ghost snapshot: seq<uint32>, ghost planned: seq<uint32>)
      requires Valid() && rt.Valid() && tt.Valid()
      requires input.roomsRoot.Some? ==>
                 var h := input.roomsRoot.value;
                 IsTree(h, input.includeInactiveChildren) && |h.children| <= IntMax &&
                 forall i :: 0 <= i < |h.children| ==> 0 <= h.children[i].transform < |tt.position|
      modifies this, rt
      ensures Valid() && rt.Valid() && rt.live == old(rt.live) && rt.bounds == old(rt.bounds) && rt.enabled == old(rt.enabled)
      ensures input.roomsRoot.None? ==> unchanged(this) && unchanged(rt)
      ensures input.roomsRoot.Some? ==>
                roomKeys == Transforms(input.roomsRoot.value.children) &&
                rooms == RoomsOf(input.roomsRoot.value.children, input.includeInactiveChildren)
      ensures input.roomsRoot.Some? && |roomKeys| == 0 ==> KeepsAssignment() && unchanged(rt)
      ensures input.roomsRoot.Some? && |roomKeys| > 0 ==>
                Assigned(input, rt.live, rt.bounds, tt.position, hostTime, old(currentMaskByRoom), old(cooldownUntil),
                         old(writes), old(lastPlayerPos), old(haveLastPlayerPos), old(rt.layerMask),
                         input.DynamicMode() && old(Gated(input.playerPosition.value, input.moveGate)), rt, snapshot, planned)
    {
      snapshot, planned := [], [];
      if input.roomsRoot.None? {
        return;
      }
      snapshot, planned := AssignRooms(input, rt, tt, hostTime);
    }

    /** `Assign` below a rooms parent. */
    method AssignRooms(input: Input, rt: RendererTable, tt: TransformTable, hostTime: real)
      returns (ghost snapshot: seq<uint32>, ghost planned: seq<uint32>)
      requires Valid() && rt.Valid() && tt.Valid() && input.roomsRoot.Some?
      requires var h := input.roomsRoot.value;
               IsTree(h, input.includeInactiveChildren) && |h.children| <= IntMax &&
               forall i :: 0 <= i < |h.children| ==> 0 <= h.children[i].transform < |tt.position|
      modifies this, rt
      ensures Valid() && rt.Valid() && rt.live == old(rt.live) && rt.bounds == old(rt.bounds) && rt.enabled == old(rt.enabled)
      ensures roomKeys == Transforms(input.roomsRoot.value.children) &&
              rooms == RoomsOf(input.roomsRoot.value.children, input.includeInactiveChildren)
      ensures |roomKeys| == 0 ==> KeepsAssignment() && unchanged(rt)
      ensures |roomKeys| > 0 ==>
                Assigned(input, rt.live, rt.bounds, tt.position, hostTime, old(currentMaskByRoom), old(cooldownUntil),
                         old(writes), old(lastPlayerPos), old(haveLastPlayerPos), old(rt.layerMask),
                         input.DynamicMode() && old(Gated(input.playerPosition.value, input.moveGate)), rt, snapshot, planned)
    {
      snapshot, planned := [], [];
      var h := input.roomsRoot.value;
      CollectRooms(h, input.includeInactiveChildren);
      if |h.children| > 0 {
        assert h.children[0].transform in rooms;
      }
      if |rooms| == 0 {
        return;
      }
      snapshot, planned := AssignCollected(input, rt, tt, hostTime);
    }

    /** `Assign` once the rooms are collected and there is at least one. */
    method AssignCollected(input: Input, rt: RendererTable, tt: TransformTable, hostTime: real)
      returns (ghost snapshot: seq<uint32>, ghost planned: seq<uint32>)
      requires Valid() && rt.Valid() && tt.Valid() && input.roomsRoot.Some?
      requires var h := input.roomsRoot.value;
               roomKeys == Transforms(h.children) && rooms == RoomsOf(h.children, input.includeInactiveChildren) &&
               forall i :: 0 <= i < |h.children| ==> 0 <= h.children[i].transform < |tt.position|
      modifies this, rt
      ensures Valid() && rt.Valid() && rt.live == old(rt.live) && rt.bounds == old(rt.bounds) && rt.enabled == old(rt.enabled)
      ensures rooms == old(rooms) && roomKeys == old(roomKeys)
      ensures Assigned(input, rt.live, rt.bounds, tt.position, hostTime, old(currentMaskByRoom), old(cooldownUntil),
                       old(writes), old(lastPlayerPos), old(haveLastPlayerPos), old(rt.layerMask),
                       input.DynamicMode() && old(Gated(input.playerPosition.value, input.moveGate)), rt, snapshot, planned)
    {
      snapshot, planned := [], [];
      Rebuild(input.roomsRoot.value, input.includeInactiveChildren, input.minSeparation, input.proximityFactor, rt, tt);
      ghost var graph := GraphOf();
      if !input.DynamicMode() {
        GlobalAssign(rt);
        assert GraphOf() == graph;
        return;
      }
      assert Gated(input.playerPosition.value, input.moveGate) == old(Gated(input.playerPosition.value, input.moveGate));
      snapshot, planned := AssignDynamic(input, rt, hostTime);
      assert GraphOf() == graph;
    }

    /** The dynamic mode of `Assign`: the move gate, then a recompute. */
    method AssignDynamic(input: Input, rt: RendererTable, hostTime: real)
      returns (ghost snapshot: seq<uint32>, ghost planned: seq<uint32>)
      requires Valid() && rt.Valid() && |bounds| == |roomKeys| && input.DynamicMode()
      requires WellFormed(GraphOf()) && SymmetricIrreflexive(GraphOf())
      modifies this, rt
      ensures Valid() && rt.Valid() && rt.live == old(rt.live) && rt.bounds == old(rt.bounds) && rt.enabled == old(rt.enabled)
      ensures rooms == old(rooms) && roomKeys == old(roomKeys) && bounds == old(bounds) && conflicts == old(conflicts)
      ensures minSeparationUsed == old(minSeparationUsed) && proximityFactor == old(proximityFactor)
      ensures old(Gated(input.playerPosition.value, input.moveGate)) ==>
                KeepsAssignment() && rt.layerMask == old(rt.layerMask)
      ensures !old(Gated(input.playerPosition.value, input.moveGate)) ==>
                Recomputed(input.playerPosition.value, input.radiusIn, input.radiusOut, NowOf(input, hostTime),
                           input.coolDownSeconds, old(currentMaskByRoom), old(cooldownUntil), old(writes),
                           old(rt.layerMask), rt, snapshot, planned)
    {
      snapshot, planned := [], [];
      var pos := input.playerPosition.value;
      if Gated(pos, input.moveGate) {
        return;
      }
      snapshot, planned := Recompute(pos, input.radiusIn, input.radiusOut, NowOf(input, hostTime), input.coolDownSeconds, rt);
    }

    /** `ComputeBounds` and `BuildConflictGraph` over freshly collected rooms. */
    method Rebuild(h: Hierarchy, includeInactive: bool, minSeparation: real, proximity: int, rt: RendererTable,
                   tt: TransformTable)
      requires Valid() && rt.Valid() && tt.Valid()
      requires roomKeys == Transforms(h.children) && rooms == RoomsOf(h.children, includeInactive)
      requires forall i :: 0 <= i < |h.children| ==> 0 <= h.children[i].transform < |tt.position|
      modifies this
      ensures Valid() && KeepsAssignment() && rooms == old(rooms) && roomKeys == old(roomKeys)
      ensures RoomsRebuilt(h, includeInactive, minSeparation, proximity, rt.live, rt.bounds, tt.position, rooms, roomKeys, GraphOf())
      ensures WellFormed(GraphOf()) && SymmetricIrreflexive(GraphOf())
    {
      var colliders := seq(|h.children|, i requires 0 <= i < |h.children| => Found(h.children[i], includeInactive).collider);
      ComputeBounds(colliders, rt, tt);
      ghost var boxes := bounds;
      assert forall i :: 0 <= i < |roomKeys| ==>
        boxes[i] == RoomBox(rooms[roomKeys[i]].renderers, rt.live, rt.bounds, Found(h.children[i], includeInactive).collider,
                            tt.position[roomKeys[i]]);
      BuildConflictGraph(minSeparation, proximity);
      assert bounds == boxes;
    }

    /** The dynamic part of `Assign` once the observer has moved past the gate. */
    method Recompute(pos: Vec3, radiusIn: real, radiusOut: real, now: real, coolDownSeconds: real, rt: RendererTable)
      returns (ghost snapshot: seq<uint32>, ghost planned: seq<uint32>)
      requires Valid() && rt.Valid() && |bounds| == |roomKeys|
      requires WellFormed(GraphOf()) && SymmetricIrreflexive(GraphOf())
      modifies this, rt
      ensures Valid() && rt.Valid() && rt.live == old(rt.live) && rt.bounds == old(rt.bounds) && rt.enabled == old(rt.enabled)
      ensures rooms == old(rooms) && roomKeys == old(roomKeys) && bounds == old(bounds) && conflicts == old(conflicts)
      ensures minSeparationUsed == old(minSeparationUsed) && proximityFactor == old(proximityFactor)
      ensures Recomputed(pos, radiusIn, radiusOut, now, coolDownSeconds, old(currentMaskByRoom), old(cooldownUntil),
                         old(writes), old(rt.layerMask), rt, snapshot, planned)
    {
      var held;
      snapshot, held := PlanMasks(pos, radiusIn, radiusOut, rt);
      planned := held;
      ApplyDeltas(held, now, coolDownSeconds, rt);
      ghost var g, current, cooldown := GraphOf(), currentMaskByRoom, cooldownUntil;
      assert RecomputeOutcome(g, rooms, roomKeys, current, cooldown, writes, rt.live, rt.layerMask, pos, radiusIn, radiusOut,
                              now, coolDownSeconds, old(currentMaskByRoom), old(cooldownUntil), old(writes),
                              old(rt.layerMask), snapshot, planned);
      lastPlayerPos := pos;
      haveLastPlayerPos := true;
    }

    /** The zones, the snapshot and the three passes: the masks a recompute aims for. Nothing changes. */
    method PlanMasks(pos: Vec3, radiusIn: real, radiusOut: real, rt: RendererTable)
      returns (ghost snapshot: seq<uint32>, held: seq<uint32>)
      requires Valid() && rt.Valid() && |bounds| == |roomKeys|
      requires WellFormed(GraphOf()) && SymmetricIrreflexive(GraphOf())
      ensures PlanOutcome(GraphOf(), rooms, roomKeys, rt.live, pos, radiusIn, radiusOut, currentMaskByRoom, rt.layerMask,
                          snapshot, held)
    {
      var inside, border, outside := Partition(bounds, pos, radiusIn, radiusOut);
      held := SnapshotCurrent(rt);
      snapshot := held;
      held := ZonePasses(GraphOf(), held, pos, radiusIn, radiusOut, inside, border, outside);
    }

    /** The body of `ApplyDeltas` for a room whose delta is due: write, record, start the cooldown. */
    method WriteRoom(i: int, mask: uint32, now: real, coolDownSeconds: real, rt: RendererTable)
      requires Valid() && rt.Valid() && 0 <= i < |roomKeys|
      requires mask != 0 && !(roomKeys[i] in cooldownUntil && now < cooldownUntil[roomKeys[i]])
      modifies this, rt
      ensures Valid()
      ensures rooms == old(rooms) && roomKeys == old(roomKeys) && bounds == old(bounds) && conflicts == old(conflicts)
      ensures minSeparationUsed == old(minSeparationUsed) && proximityFactor == old(proximityFactor)
      ensures haveLastPlayerPos == old(haveLastPlayerPos) && lastPlayerPos == old(lastPlayerPos)
      ensures currentMaskByRoom == old(currentMaskByRoom)[roomKeys[i] := mask]
      ensures cooldownUntil == old(cooldownUntil)[roomKeys[i] := CooldownEnd(now, coolDownSeconds)]
      ensures writes == old(writes) + [Write(roomKeys[i], mask, now, CooldownEnd(now, coolDownSeconds))]
      ensures rt.Valid() && rt.live == old(rt.live) && rt.bounds == old(rt.bounds) && rt.enabled == old(rt.enabled)
      ensures |rt.layerMask| == |old(rt.layerMask)|
      ensures forall r :: 0 <= r < |rt.layerMask| ==>
                rt.layerMask[r] == if r in rooms[roomKeys[i]].renderers && rt.live[r] then mask else old(rt.layerMask[r])
    {
      var t := roomKeys[i];
      DisciplineStep(writes, cooldownUntil, t, mask, now, coolDownSeconds);
      ApplyRenderLayerMask(i, mask, rt);
      currentMaskByRoom := currentMaskByRoom[t := mask];
      cooldownUntil := cooldownUntil[t := CooldownEnd(now, coolDownSeconds)];
      writes := writes + [Write(t, mask, now, CooldownEnd(now, coolDownSeconds))];
    }

    /** The loop of `ApplyDeltas`, stated over the room-by-room folds. */
    method WriteDue(held: seq<uint32>, now: real, coolDownSeconds: real, rt: RendererTable)
      requires Valid() && rt.Valid() && |held| == |roomKeys|
      modifies this, rt
      ensures Valid()
      ensures rooms == old(rooms) && roomKeys == old(roomKeys) && bounds == old(bounds) && conflicts == old(conflicts)
      ensures minSeparationUsed == old(minSeparationUsed) && proximityFactor == old(proximityFactor)
      ensures haveLastPlayerPos == old(haveLastPlayerPos) && lastPlayerPos == old(lastPlayerPos)
      ensures currentMaskByRoom == Applied(old(currentMaskByRoom), old(cooldownUntil), roomKeys, held, now, |roomKeys|)
      ensures cooldownUntil == Cooled(old(currentMaskByRoom), old(cooldownUntil), roomKeys, held, now, coolDownSeconds, |roomKeys|)
      ensures writes == old(writes) + DueWrites(old(currentMaskByRoom), old(cooldownUntil), roomKeys, held, now, coolDownSeconds, |roomKeys|)
      ensures rt.Valid() && rt.live == old(rt.live) && rt.bounds == old(rt.bounds) && rt.enabled == old(rt.enabled)
      ensures |rt.layerMask| == |old(rt.layerMask)|
      ensures forall r :: 0 <= r < |rt.layerMask| ==>
                rt.layerMask[r] == MaskAfter(Only(RendererLists(rooms, roomKeys), DueFlags(old(currentMaskByRoom), old(cooldownUntil), roomKeys, held, now)),
                                             held, rt.live, old(rt.layerMask)[r], |roomKeys|, r)
    {
      ghost var cur0 := currentMaskByRoom;
      ghost var cool0 := cooldownUntil;
      ghost var lists := Only(RendererLists(rooms, roomKeys), DueFlags(cur0, cool0, roomKeys, held, now));
      var i := 0;
      while i < |roomKeys|
        invariant 0 <= i <= |roomKeys|
        invariant Valid()
        invariant rooms == old(rooms) && roomKeys == old(roomKeys) && bounds == old(bounds) && conflicts == old(conflicts)
        invariant minSeparationUsed == old(minSeparationUsed) && proximityFactor == old(proximityFactor)
        invariant haveLastPlayerPos == old(haveLastPlayerPos) && lastPlayerPos == old(lastPlayerPos)
        invariant rt.Valid() && rt.live == old(rt.live) && rt.bounds == old(rt.bounds) && rt.enabled == old(rt.enabled)
        invariant Progress(currentMaskByRoom, cooldownUntil, writes, rt.layerMask, cur0, cool0, old(writes), old(rt.layerMask),
                           lists, roomKeys, held, rt.live, now, coolDownSeconds, i)
      {
        WriteStep(i, held, now, coolDownSeconds, rt, cur0, cool0, old(writes), old(rt.layerMask), lists);
        i := i + 1;
      }
    }

    /** One room of `WriteDue`: room `i`'s delta is written when it is due, and skipped otherwise. */
    method WriteStep(i: int, held: seq<uint32>, now: real, coolDownSeconds: real, rt: RendererTable,
                     ghost cur0: map<int, uint32>, ghost cool0: map<int, real>, ghost writes0: seq<Write>,
                     ghost masks0: seq<uint32>, ghost lists: seq<seq<int>>)
      requires Valid() && rt.Valid() && |held| == |roomKeys| && 0 <= i < |roomKeys|
      requires lists == Only(RendererLists(rooms, roomKeys), DueFlags(cur0, cool0, roomKeys, held, now))
      requires Progress(currentMaskByRoom, cooldownUntil, writes, rt.layerMask, cur0, cool0, writes0, masks0,
                        lists, roomKeys, held, rt.live, now, coolDownSeconds, i)
      modifies this, rt
      ensures Valid()
      ensures rooms == old(rooms) && roomKeys == old(roomKeys) && bounds == old(bounds) && conflicts == old(conflicts)
      ensures minSeparationUsed == old(minSeparationUsed) && proximityFactor == old(proximityFactor)
      ensures haveLastPlayerPos == old(haveLastPlayerPos) && lastPlayerPos == old(lastPlayerPos)
      ensures rt.Valid() && rt.live == old(rt.live) && rt.bounds == old(rt.bounds) && rt.enabled == old(rt.enabled)
      ensures Progress(currentMaskByRoom, cooldownUntil, writes, rt.layerMask, cur0, cool0, writes0, masks0,
                       lists, roomKeys, held, rt.live, now, coolDownSeconds, i + 1)
    {
      var t := roomKeys[i];
      var newMask := held[i];
      var oldMask: uint32 := if t in currentMaskByRoom then currentMaskByRoom[t] else 0;
      DueAt(cur0, cool0, roomKeys, held, now, coolDownSeconds, i);
      assert lists[i] == if DueIn(currentMaskByRoom, cooldownUntil, t, newMask, now) then rooms[t].renderers else [];
      ghost var current, cooldown, log, prev := currentMaskByRoom, cooldownUntil, writes, rt.layerMask;
      if newMask == 0 || newMask == oldMask {
      } else if t in cooldownUntil && now < cooldownUntil[t] {
      } else {
        WriteRoom(i, newMask, now, coolDownSeconds, rt);
      }
      ProgressStep(current, cooldown, log, prev, currentMaskByRoom, cooldownUntil, writes, rt.layerMask,
                   cur0, cool0, writes0, masks0, lists, roomKeys, held, rt.live, now, coolDownSeconds, i);
    }
  }

  /**
   * One room of `WriteDue` on the values it changes: when its delta is due, the room's key records the new mask
   * and a fresh cooldown, the write is logged and its list's live renderers take the mask; otherwise nothing
   * changes. Either way the progress reaches room `i + 1`.
   */
  lemma ProgressStep(current: map<int, uint32>, cooldown: map<int, real>, writes: seq<Write>, masks: seq<uint32>,
                     current': map<int, uint32>, cooldown': map<int, real>, writes': seq<Write>, masks': seq<uint32>,
                     cur0: map<int, uint32>, cool0: map<int, real>, writes0: seq<Write>, masks0: seq<uint32>,
                     lists: seq<seq<int>>, keys: seq<int>, held: seq<uint32>, live: seq<bool>, now: real,
                     coolDownSeconds: real, i: nat)
    requires Progress(current, cooldown, writes, masks, cur0, cool0, writes0, masks0, lists, keys, held, live, now,
                      coolDownSeconds, i)
    requires i < |keys| && i < |lists| && Distinct(keys)
    requires DueIn(current, cooldown, keys[i], held[i], now) ==>
               current' == current[keys[i] := held[i]] && cooldown' == cooldown[keys[i] := CooldownEnd(now, coolDownSeconds)] &&
               writes' == writes + [Write(keys[i], held[i], now, CooldownEnd(now, coolDownSeconds))]
    requires !DueIn(current, cooldown, keys[i], held[i], now) ==>
               current' == current && cooldown' == cooldown && writes' == writes
    requires |masks'| == |masks| &&
             forall r :: 0 <= r < |masks'| ==>
               masks'[r] == if r in lists[i] && 0 <= r < |live| && live[r] then held[i] else masks[r]
    ensures Progress(current', cooldown', writes', masks', cur0, cool0, writes0, masks0, lists, keys, held, live, now,
                     coolDownSeconds, i + 1)
  {
    DueAt(cur0, cool0, keys, held, now, coolDownSeconds, i);
    MaskAfterStep(lists, held, live, masks0, masks, masks', i);
  }

  /**
   * `WriteDue` after rooms `0 .. i-1`: the maps and the write log are the folds of the due deltas so far, and
   * every renderer has the mask the rooms so far left on it.
   */
  ghost predicate Progress(current: map<int, uint32>, cooldown: map<int, real>, writes: seq<Write>, masks: seq<uint32>,
                           cur0: map<int, uint32>, cool0: map<int, real>, writes0: seq<Write>, masks0: seq<uint32>,
                           lists: seq<seq<int>>, keys: seq<int>, held: seq<uint32>, live: seq<bool>, now: real,
                           coolDownSeconds: real, i: nat)
  {
    i <= |keys| == |held| && i <= |lists| &&
    current == Applied(cur0, cool0, keys, held, now, i) &&
    cooldown == Cooled(cur0, cool0, keys, held, now, coolDownSeconds, i) &&
    writes == writes0 + DueWrites(cur0, cool0, keys, held, now, coolDownSeconds, i) &&
    |masks| == |masks0| &&
    forall r :: 0 <= r < |masks| ==> masks[r] == MaskAfter(lists, held, live, masks0[r], i, r)
  }

  /**
   * The planning half of a recompute from `current0, masks0` over graph `g`: `snapshot` is what
   * `SnapshotCurrent` reads, and the three passes take it to `planned`, its `PlanAfter`, with the zone
   * guarantees.
   */
  ghost predicate PlanOutcome(g: Graph, rooms: map<int, RoomLists>, keys: seq<int>, live: seq<bool>,
                              pos: Vec3, radiusIn: real, radiusOut: real, current0: map<int, uint32>,
                              masks0: seq<uint32>, snapshot: seq<uint32>, planned: seq<uint32>)
    requires WellFormed(g) && forall i :: 0 <= i < |keys| ==> keys[i] in rooms
  {
    |snapshot| == |keys| == |planned| &&
    (forall i :: 0 <= i < |keys| ==>
       IsSnapshot(g.palette, current0, keys[i], rooms[keys[i]].renderers, live, masks0, snapshot[i])) &&
    ZoneOutcome(g, snapshot, planned, pos, radiusIn, radiusOut) &&
    ValidPalette(g.palette) && |snapshot| <= IntMax && ZeroOrAllowed(g.palette, snapshot) &&
    planned == PlanAfter(g, snapshot, pos, radiusIn, radiusOut, Outside)
  }

  /**
   * A recompute from `current0, cooldown0, writes0, masks0` over graph `g`: the plan of `PlanOutcome`, and
   * the due deltas of `planned` applied to the maps, the write log and the renderer masks.
   */
  ghost predicate RecomputeOutcome(g: Graph, rooms: map<int, RoomLists>, keys: seq<int>, current: map<int, uint32>,
                                   cooldown: map<int, real>, writes: seq<Write>, live: seq<bool>, masks: seq<uint32>,
                                   pos: Vec3, radiusIn: real, radiusOut: real, now: real, coolDownSeconds: real,
                                   current0: map<int, uint32>, cooldown0: map<int, real>, writes0: seq<Write>,
                                   masks0: seq<uint32>, snapshot: seq<uint32>, planned: seq<uint32>)
    requires WellFormed(g) && forall i :: 0 <= i < |keys| ==> keys[i] in rooms
  {
    PlanOutcome(g, rooms, keys, live, pos, radiusIn, radiusOut, current0, masks0, snapshot, planned) &&
    DeltasApplied(current0, cooldown0, current, cooldown, keys, planned, now, coolDownSeconds) &&
    writes == writes0 + DueWrites(current0, cooldown0, keys, planned, now, coolDownSeconds, |keys|) &&
    MasksWritten(RendererLists(rooms, keys), planned, DueFlags(current0, cooldown0, keys, planned, now), live, masks, masks0)
  }

  /** The renderer lists of the rooms, in room order. */
  function RendererLists(rooms: map<int, RoomLists>, keys: seq<int>): (r: seq<seq<int>>)
    requires forall i :: 0 <= i < |keys| ==> keys[i] in rooms
    ensures |r| == |keys| && forall i :: 0 <= i < |keys| ==> r[i] == rooms[keys[i]].renderers
  {
    seq(|keys|, i requires 0 <= i < |keys| && keys[i] in rooms => rooms[keys[i]].renderers)
  }

  /** Renderer `r`'s mask once rooms `0 .. i-1` have each written their mask to their live renderers, in order. */
  function MaskAfter(lists: seq<seq<int>>, held: seq<uint32>, live: seq<bool>, before: uint32, i: nat, r: int): uint32
    requires i <= |lists| && i <= |held|
  {
    if i == 0 then before
    else if r in lists[i - 1] && 0 <= r < |live| && live[r] then held[i - 1]
    else MaskAfter(lists, held, live, before, i - 1, r)
  }

  /** When no renderer is in two lists, a live renderer ends with its own room's mask and any other keeps its own. */
  lemma {:induction false} MaskAfterDisjoint(lists: seq<seq<int>>, held: seq<uint32>, live: seq<bool>, before: uint32,
                                             i: nat, r: int)
    requires i <= |lists| && i <= |held|
    requires forall a, b :: 0 <= a < b < |lists| ==> Disjoint(lists[a], lists[b])
    ensures forall k :: 0 <= k < i && r in lists[k] && 0 <= r < |live| && live[r] ==>
              MaskAfter(lists, held, live, before, i, r) == held[k]
    ensures (forall k :: 0 <= k < i ==> r !in lists[k]) || !(0 <= r < |live| && live[r]) ==>
              MaskAfter(lists, held, live, before, i, r) == before
  {
    if i > 0 {
      MaskAfterDisjoint(lists, held, live, before, i - 1, r);
      forall k | 0 <= k < i - 1 && r in lists[k] && 0 <= r < |live| && live[r]
        ensures r !in lists[i - 1]
      {
        assert Disjoint(lists[k], lists[i - 1]);
      }
    }
  }

  /** One room's write takes the folded masks of rooms `0 .. i-1` to those of rooms `0 .. i`. */
  lemma MaskAfterStep(lists: seq<seq<int>>, held: seq<uint32>, live: seq<bool>, before: seq<uint32>,
                      prev: seq<uint32>, masks: seq<uint32>, i: nat)
    requires i < |lists| && i < |held| && |prev| == |before| == |masks|
    requires forall r :: 0 <= r < |prev| ==> prev[r] == MaskAfter(lists, held, live, before[r], i, r)
    requires forall r :: 0 <= r < |masks| ==>
               masks[r] == if r in lists[i] && 0 <= r < |live| && live[r] then held[i] else prev[r]
    ensures forall r :: 0 <= r < |masks| ==> masks[r] == MaskAfter(lists, held, live, before[r], i + 1, r)
  {
  }

  /** `m` once `keys[k] := held[k]` has been recorded for `k = 0 .. i-1`, in order. */
  function Recorded(m: map<int, uint32>, keys: seq<int>, held: seq<uint32>, i: nat): map<int, uint32>
    requires i <= |keys| && i <= |held|
  {
    if i == 0 then m else Recorded(m, keys, held, i - 1)[keys[i - 1] := held[i - 1]]
  }

  /** With distinct keys every recorded key maps to its own mask, and other keys keep their entries. */
  lemma {:induction false} RecordedDistinct(m: map<int, uint32>, keys: seq<int>, held: seq<uint32>, i: nat)
    requires i <= |keys| && i <= |held| && Distinct(keys)
    ensures forall k :: 0 <= k < i ==> keys[k] in Recorded(m, keys, held, i) && Recorded(m, keys, held, i)[keys[k]] == held[k]
    ensures forall x :: x !in keys[..i] ==> (x in Recorded(m, keys, held, i) <==> x in m)
    ensures forall x :: x !in keys[..i] && x in m ==> Recorded(m, keys, held, i)[x] == m[x]
  {
    if i > 0 {
      RecordedDistinct(m, keys, held, i - 1);
      assert keys[..i] == keys[..i - 1] + [keys[i - 1]];
    }
  }

  /** The delta rule of `ApplyDeltas` against the maps `current` and `cooldown`. */
  predicate DueIn(current: map<int, uint32>, cooldown: map<int, real>, key: int, mask: uint32, now: real) {
    mask != 0 && mask != (if key in current then current[key] else 0) && !(key in cooldown && now < cooldown[key])
  }

  /** Which rooms' deltas are due. */
  function DueFlags(current: map<int, uint32>, cooldown: map<int, real>, keys: seq<int>, held: seq<uint32>, now: real): (r: seq<bool>)
    requires |held| == |keys|
    ensures |r| == |keys| && forall i :: 0 <= i < |keys| ==> r[i] == DueIn(current, cooldown, keys[i], held[i], now)
  {
    seq(|keys|, i requires 0 <= i < |keys| => DueIn(current, cooldown, keys[i], held[i], now))
  }

  /** The lists whose flag is set; the others emptied. */
  function Only(lists: seq<seq<int>>, flags: seq<bool>): (r: seq<seq<int>>)
    requires |flags| == |lists|
    ensures |r| == |lists| && forall i :: 0 <= i < |lists| ==> r[i] == if flags[i] then lists[i] else []
  {
    seq(|lists|, i requires 0 <= i < |lists| => if flags[i] then lists[i] else [])
  }

  /**
   * Renderer masks after the rooms whose flag is set wrote theirs: a live renderer of room `i` has `held[i]`
   * when the flag is set and keeps `before` otherwise; a renderer of no room, or not live, keeps `before`.
   */
  ghost predicate MasksWritten(lists: seq<seq<int>>, held: seq<uint32>, flags: seq<bool>, live: seq<bool>,
                               masks: seq<uint32>, before: seq<uint32>)
    requires |held| == |lists| && |flags| == |lists|
  {
    |masks| == |before| &&
    forall r :: 0 <= r < |masks| ==> RendererWritten(lists, held, flags, live, masks, before, r)
  }

  /** What `MasksWritten` says of renderer `r`. */
  ghost predicate RendererWritten(lists: seq<seq<int>>, held: seq<uint32>, flags: seq<bool>, live: seq<bool>,
                                  masks: seq<uint32>, before: seq<uint32>, r: int)
    requires |held| == |lists| && |flags| == |lists| && |masks| == |before| && 0 <= r < |masks|
  {
    (0 <= r < |live| && live[r] ==>
       forall i :: 0 <= i < |lists| && r in lists[i] ==> masks[r] == if flags[i] then held[i] else before[r]) &&
    ((!(0 <= r < |live| && live[r]) || forall i :: 0 <= i < |lists| ==> r !in lists[i]) ==> masks[r] == before[r])
  }

  /** The current-mask map after the deltas of rooms `0 .. i-1`. */
  function Applied(current: map<int, uint32>, cooldown: map<int, real>, keys: seq<int>, held: seq<uint32>,
                   now: real, i: nat): map<int, uint32>
    requires i <= |keys| == |held|
  {
    if i == 0 then current
    else
      var prev := Applied(current, cooldown, keys, held, now, i - 1);
      if DueIn(current, cooldown, keys[i - 1], held[i - 1], now) then prev[keys[i - 1] := held[i - 1]] else prev
  }

  /** The cooldown map after the deltas of rooms `0 .. i-1`. */
  function Cooled(current: map<int, uint32>, cooldown: map<int, real>, keys: seq<int>, held: seq<uint32>,
                  now: real, coolDownSeconds: real, i: nat): map<int, real>
    requires i <= |keys| == |held|
  {
    if i == 0 then cooldown
    else
      var prev := Cooled(current, cooldown, keys, held, now, coolDownSeconds, i - 1);
      if DueIn(current, cooldown, keys[i - 1], held[i - 1], now) then prev[keys[i - 1] := CooldownEnd(now, coolDownSeconds)]
      else prev
  }

  /** The writes the deltas of rooms `0 .. i-1` make, in room order. */
  function DueWrites(current: map<int, uint32>, cooldown: map<int, real>, keys: seq<int>, held: seq<uint32>,
                     now: real, coolDownSeconds: real, i: nat): seq<Write>
    requires i <= |keys| == |held|
  {
    if i == 0 then []
    else
      DueWrites(current, cooldown, keys, held, now, coolDownSeconds, i - 1) +
      (if DueIn(current, cooldown, keys[i - 1], held[i - 1], now)
       then [Write(keys[i - 1], held[i - 1], now, CooldownEnd(now, coolDownSeconds))] else [])
  }

  /** The entries of a key not yet reached are the original ones. */
  lemma {:induction false} UntouchedAhead(current: map<int, uint32>, cooldown: map<int, real>, keys: seq<int>,
                                           held: seq<uint32>, now: real, coolDownSeconds: real, i: nat)
    requires i <= |keys| == |held| && Distinct(keys)
    ensures forall j :: i <= j < |keys| ==>
              (keys[j] in Applied(current, cooldown, keys, held, now, i) <==> keys[j] in current) &&
              (keys[j] in current ==> Applied(current, cooldown, keys, held, now, i)[keys[j]] == current[keys[j]]) &&
              (keys[j] in Cooled(current, cooldown, keys, held, now, coolDownSeconds, i) <==> keys[j] in cooldown) &&
              (keys[j] in cooldown ==> Cooled(current, cooldown, keys, held, now, coolDownSeconds, i)[keys[j]] == cooldown[keys[j]])
  {
    if i > 0 {
      UntouchedAhead(current, cooldown, keys, held, now, coolDownSeconds, i - 1);
    }
  }

  /** Room `i` sees the same delta rule before the loop as when the loop reaches it. */
  lemma DueAt(current: map<int, uint32>, cooldown: map<int, real>, keys: seq<int>, held: seq<uint32>, now: real,
              coolDownSeconds: real, i: nat)
    requires i < |keys| == |held| && Distinct(keys)
    ensures DueIn(Applied(current, cooldown, keys, held, now, i), Cooled(current, cooldown, keys, held, now, coolDownSeconds, i),
                  keys[i], held[i], now) == DueIn(current, cooldown, keys[i], held[i], now)
  {
    UntouchedAhead(current, cooldown, keys, held, now, coolDownSeconds, i);
  }

  /**
   * What the deltas leave, room by room: a room whose delta is due holds the new mask and a fresh cooldown;
   * every other room, and every key that is not a room, keeps its entries; no room with a mask loses it.
   */
  ghost predicate DeltasApplied(current0: map<int, uint32>, cooldown0: map<int, real>, current: map<int, uint32>,
                                cooldown: map<int, real>, keys: seq<int>, held: seq<uint32>, now: real, coolDownSeconds: real)
    requires |held| == |keys|
  {
    (forall i :: 0 <= i < |keys| ==> DeltaAt(current0, cooldown0, current, cooldown, keys, held, now, coolDownSeconds, i)) &&
    (forall k :: k !in keys ==> SameEntry(current0, current, k) && SameEntry(cooldown0, cooldown, k)) &&
    (forall k :: KeepsMask(current0, current, k))
  }

  /** What `DeltasApplied` says of room `i`: the new mask and cooldown when its delta is due, else no change. */
  ghost predicate DeltaAt(current0: map<int, uint32>, cooldown0: map<int, real>, current: map<int, uint32>,
                          cooldown: map<int, real>, keys: seq<int>, held: seq<uint32>, now: real, coolDownSeconds: real, i: int)
    requires |held| == |keys| && 0 <= i < |keys|
  {
    if DueIn(current0, cooldown0, keys[i], held[i], now) then
      keys[i] in current && current[keys[i]] == held[i] &&
      keys[i] in cooldown && cooldown[keys[i]] == CooldownEnd(now, coolDownSeconds)
    else
      SameEntry(current0, current, keys[i]) && SameEntry(cooldown0, cooldown, keys[i])
  }

  /** A key that had a non-zero mask still has one. */
  predicate KeepsMask(before: map<int, uint32>, after: map<int, uint32>, k: int) {
    k in before && before[k] != 0 ==> k in after && after[k] != 0
  }

  /** `after` has the same entry for `k` as `before`, or none when `before` has none. */
  predicate SameEntry<V(==)>(before: map<int, V>, after: map<int, V>, k: int) {
    (k in after <==> k in before) && (k in after ==> after[k] == before[k])
  }

  lemma AppliedOutcome(current: map<int, uint32>, cooldown: map<int, real>, keys: seq<int>,
                       held: seq<uint32>, now: real, coolDownSeconds: real)
    requires |keys| == |held| && Distinct(keys)
    ensures DeltasApplied(current, cooldown, Applied(current, cooldown, keys, held, now, |keys|),
                          Cooled(current, cooldown, keys, held, now, coolDownSeconds, |keys|), keys, held, now, coolDownSeconds)
  {
    var n := |keys|;
    forall i | 0 <= i < n
      ensures DeltaAt(current, cooldown, Applied(current, cooldown, keys, held, now, n),
                      Cooled(current, cooldown, keys, held, now, coolDownSeconds, n), keys, held, now, coolDownSeconds, i)
    {
      if DueIn(current, cooldown, keys[i], held[i], now) {
        KeyWritten(current, cooldown, keys, held, now, coolDownSeconds, n, i);
      } else {
        KeyUntouched(current, cooldown, keys, held, now, coolDownSeconds, n, keys[i]);
      }
    }
    forall k | k !in keys
      ensures SameEntry(current, Applied(current, cooldown, keys, held, now, n), k)
      ensures SameEntry(cooldown, Cooled(current, cooldown, keys, held, now, coolDownSeconds, n), k)
    {
      KeyUntouched(current, cooldown, keys, held, now, coolDownSeconds, n, k);
    }
    forall k
      ensures KeepsMask(current, Applied(current, cooldown, keys, held, now, n), k)
    {
      if k in current && current[k] != 0 {
        KeyKeepsMask(current, cooldown, keys, held, now, n, k);
      }
    }
  }

  /** A key no due delta among rooms `0 .. n-1` names keeps its entries in both maps. */
  lemma {:induction false} KeyUntouched(current: map<int, uint32>, cooldown: map<int, real>, keys: seq<int>,
                                         held: seq<uint32>, now: real, coolDownSeconds: real, n: nat, k: int)
    requires n <= |keys| == |held|
    requires forall j :: 0 <= j < n && keys[j] == k ==> !DueIn(current, cooldown, k, held[j], now)
    ensures SameEntry(current, Applied(current, cooldown, keys, held, now, n), k)
    ensures SameEntry(cooldown, Cooled(current, cooldown, keys, held, now, coolDownSeconds, n), k)
  {
    if n > 0 {
      KeyUntouched(current, cooldown, keys, held, now, coolDownSeconds, n - 1, k);
    }
  }

  /** A due delta of room `i` is in both maps once the rooms up to `n > i` are done: keys are distinct. */
  lemma {:induction false} KeyWritten(current: map<int, uint32>, cooldown: map<int, real>, keys: seq<int>,
                                       held: seq<uint32>, now: real, coolDownSeconds: real, n: nat, i: nat)
    requires i < n <= |keys| == |held| && Distinct(keys) && DueIn(current, cooldown, keys[i], held[i], now)
    ensures var cur, cool := Applied(current, cooldown, keys, held, now, n), Cooled(current, cooldown, keys, held, now, coolDownSeconds, n);
            keys[i] in cur && cur[keys[i]] == held[i] && keys[i] in cool && cool[keys[i]] == CooldownEnd(now, coolDownSeconds)
  {
    if n - 1 > i {
      KeyWritten(current, cooldown, keys, held, now, coolDownSeconds, n - 1, i);
      assert keys[n - 1] != keys[i];
    }
  }

  /** A key with a non-zero mask keeps a non-zero mask: a due delta is never 0. */
  lemma {:induction false} KeyKeepsMask(current: map<int, uint32>, cooldown: map<int, real>, keys: seq<int>,
                                         held: seq<uint32>, now: real, n: nat, k: int)
    requires n <= |keys| == |held| && k in current && current[k] != 0
    ensures k in Applied(current, cooldown, keys, held, now, n) && Applied(current, cooldown, keys, held, now, n)[k] != 0
  {
    if n > 0 {
      KeyKeepsMask(current, cooldown, keys, held, now, n - 1, k);
    }
  }

  /** The folded masks of `WriteDue`, room by room. */
  lemma DueMasksWritten(lists: seq<seq<int>>, held: seq<uint32>, flags: seq<bool>, live: seq<bool>,
                        masks: seq<uint32>, before: seq<uint32>)
    requires |held| == |lists| && |flags| == |lists| && |masks| == |before|
    requires forall a, b :: 0 <= a < b < |lists| ==> Disjoint(lists[a], lists[b])
    requires forall r :: 0 <= r < |masks| ==> masks[r] == MaskAfter(Only(lists, flags), held, live, before[r], |lists|, r)
    ensures MasksWritten(lists, held, flags, live, masks, before)
  {
    var only := Only(lists, flags);
    forall a, b | 0 <= a < b < |only|
      ensures Disjoint(only[a], only[b])
    {
      assert Disjoint(lists[a], lists[b]);
    }
    forall r | 0 <= r < |masks|
      ensures RendererWritten(lists, held, flags, live, masks, before, r)
    {
      MaskAfterDisjoint(only, held, live, before[r], |lists|, r);
    }
  }

  /** One more write keeps the cooldown discipline when the room's cooldown is over and the mask is not 0. */
  lemma DisciplineStep(writes: seq<Write>, cooldownUntil: map<int, real>, key: int, mask: uint32, now: real,
                       coolDownSeconds: real)
    requires Disciplined(writes, cooldownUntil)
    requires mask != 0 && !(key in cooldownUntil && now < cooldownUntil[key])
    ensures Disciplined(writes + [Write(key, mask, now, CooldownEnd(now, coolDownSeconds))],
                        cooldownUntil[key := CooldownEnd(now, coolDownSeconds)])
  {
  }
}

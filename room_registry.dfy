/**
 * `RoomRegistry`: the ordered list of rooms of the culling engine, rebuilt from the children of a rooms
 * parent, and the centre of each room, recomputed from its renderers' bounds.
 */
module Registry {
  import opened Wrappers
  import opened Geometry
  import opened Sorting
  import opened Scene
  import opened RoomRecords

  /** Whether handle `x` is live in a table whose liveness is `live`. */
  predicate LiveIn(x: int, live: seq<bool>) {
    0 <= x < |live| && live[x]
  }

  /** The live handles of `s`, in list order: what the filter loops of `Rebuild` keep. */
  function FilterLive(s: seq<int>, live: seq<bool>): (r: seq<int>)
    ensures |r| <= |s|
  {
    if |s| == 0 then []
    else FilterLive(s[..|s| - 1], live) + (if LiveIn(s[|s| - 1], live) then [s[|s| - 1]] else [])
  }

  /** One more handle of the list joins the filtered list exactly when it is live. */
  lemma FilterLiveStep(s: seq<int>, m: int, live: seq<bool>)
    requires 0 <= m < |s|
    ensures FilterLive(s[..m + 1], live) == FilterLive(s[..m], live) + (if LiveIn(s[m], live) then [s[m]] else [])
  {
    assert s[..m + 1][..m] == s[..m];
  }

  /** The filtered list holds exactly the live handles of the list ... */
  lemma {:induction false} FilterLiveMembers(s: seq<int>, live: seq<bool>, x: int)
    ensures x in FilterLive(s, live) <==> x in s && LiveIn(x, live)
  {
    if |s| > 0 {
      FilterLiveMembers(s[..|s| - 1], live, x);
      assert s == s[..|s| - 1] + [s[|s| - 1]];
    }
  }

  /** ... keeps a list whose handles are all live as it is ... */
  lemma {:induction false} FilterLiveKeepsLive(s: seq<int>, live: seq<bool>)
    requires forall k :: 0 <= k < |s| ==> LiveIn(s[k], live)
    ensures FilterLive(s, live) == s
  {
    if |s| > 0 {
      FilterLiveKeepsLive(s[..|s| - 1], live);
      assert s == s[..|s| - 1] + [s[|s| - 1]];
    }
  }

  /** ... and lists no handle twice when the list did not. */
  lemma {:induction false} FilterLiveDistinct(s: seq<int>, live: seq<bool>)
    requires Distinct(s)
    ensures Distinct(FilterLive(s, live))
  {
    if |s| > 0 {
      var front := s[..|s| - 1];
      FilterLiveDistinct(front, live);
      var f := FilterLive(front, live);
      if LiveIn(s[|s| - 1], live) {
        forall k | 0 <= k < |f|
          ensures f[k] != s[|s| - 1]
        {
          FilterLiveMembers(front, live, f[k]);
        }
      }
    }
  }

  /** The filter loop: the live handles of `s`, in order. */
  method CollectLive(s: seq<int>, live: seq<bool>) returns (r: seq<int>)
    ensures r == FilterLive(s, live)
  {
    r := [];
    var m := 0;
    while m < |s|
      invariant 0 <= m <= |s|
      invariant r == FilterLive(s[..m], live)
    {
      FilterLiveStep(s, m, live);
      if LiveIn(s[m], live) {
        r := r + [s[m]];
      }
      m := m + 1;
    }
    assert s[..|s|] == s;
  }

  /** The children of the rooms parent whose transform is live, in child order. */
  function LiveChildren(children: seq<ChildNode>, live: seq<bool>): (r: seq<ChildNode>)
    ensures |r| <= |children|
  {
    if |children| == 0 then []
    else
      var c := children[|children| - 1];
      LiveChildren(children[..|children| - 1], live) + (if LiveIn(c.transform, live) then [c] else [])
  }

  lemma LiveChildrenStep(children: seq<ChildNode>, i: int, live: seq<bool>)
    requires 0 <= i < |children|
    ensures LiveChildren(children[..i + 1], live) ==
            LiveChildren(children[..i], live) + (if LiveIn(children[i].transform, live) then [children[i]] else [])
  {
    assert children[..i + 1][..i] == children[..i];
  }

  /** Every kept child is a child of the list. */
  lemma {:induction false} LiveChildrenFrom(children: seq<ChildNode>, live: seq<bool>, k: int)
    requires 0 <= k < |LiveChildren(children, live)|
    ensures LiveChildren(children, live)[k] in children
  {
    var front := children[..|children| - 1];
    if k < |LiveChildren(front, live)| {
      LiveChildrenFrom(front, live, k);
    }
  }

  /** The children before the last of a tree form a tree. */
  lemma TreeFront(children: seq<ChildNode>, includeInactive: bool)
    requires |children| > 0 && IsTree(Hierarchy(children), includeInactive)
    ensures IsTree(Hierarchy(children[..|children| - 1]), includeInactive)
  {
    var front := children[..|children| - 1];
    assert forall a :: 0 <= a < |front| ==> front[a] == children[a];
  }

  /** A child with a transform of its own and lists apart from those of a tree extends the tree. */
  lemma TreeSnoc(kept: seq<ChildNode>, last: ChildNode, includeInactive: bool)
    requires IsTree(Hierarchy(kept), includeInactive)
    requires Distinct(Found(last, includeInactive).lights) && Distinct(Found(last, includeInactive).renderers)
    requires forall a :: 0 <= a < |kept| ==> kept[a].transform != last.transform
    requires forall a :: 0 <= a < |kept| ==>
               Disjoint(Found(kept[a], includeInactive).lights, Found(last, includeInactive).lights) &&
               Disjoint(Found(kept[a], includeInactive).renderers, Found(last, includeInactive).renderers)
    ensures IsTree(Hierarchy(kept + [last]), includeInactive)
  {
    var all := kept + [last];
    assert forall a :: 0 <= a < |kept| ==> all[a] == kept[a];
    assert all[|kept|] == last;
  }

  /** Dropping the children with a dead transform keeps the hierarchy a tree. */
  lemma {:induction false} LiveChildrenTree(children: seq<ChildNode>, live: seq<bool>, includeInactive: bool)
    requires IsTree(Hierarchy(children), includeInactive)
    ensures IsTree(Hierarchy(LiveChildren(children, live)), includeInactive)
  {
    if |children| > 0 {
      var n := |children|;
      var front := children[..n - 1];
      var last := children[n - 1];
      TreeFront(children, includeInactive);
      LiveChildrenTree(front, live, includeInactive);
      var kept := LiveChildren(front, live);
      if LiveIn(last.transform, live) {
        forall a | 0 <= a < |kept|
          ensures kept[a].transform != last.transform
          ensures Disjoint(Found(kept[a], includeInactive).lights, Found(last, includeInactive).lights)
          ensures Disjoint(Found(kept[a], includeInactive).renderers, Found(last, includeInactive).renderers)
        {
          LiveChildrenFrom(front, live, a);
          var b :| 0 <= b < n - 1 && front[b] == kept[a];
          assert children[b] == kept[a];
        }
        TreeSnoc(kept, last, includeInactive);
      }
    }
  }

  /** A record `Rebuild` makes for a live child: its transform, and the live renderers and lights found below it. */
  ghost predicate BuiltFrom(rec: RoomRendererRecord, child: ChildNode, includeInactive: bool,
                            rendererLive: seq<bool>, lightLive: seq<bool>)
  {
    rec.root == child.transform &&
    rec.renderers == FilterLive(Found(child, includeInactive).renderers, rendererLive) &&
    rec.lights == FilterLive(Found(child, includeInactive).lights, lightLive)
  }

  /**
   * The loop of `Rebuild` over the children of the rooms parent: one new record, Off, per child with a live
   * transform, in child order, holding the live renderers and lights found below it.
   */
  method BuildRecords(children: seq<ChildNode>, includeInactive: bool, rt: RendererTable, tt: TransformTable,
                      lights: LightTable) returns (rooms: seq<RoomRendererRecord>)
    requires tt.Valid()
    ensures DistinctRecords(rooms)
    ensures var kids := LiveChildren(children, tt.live);
            |rooms| == |kids| &&
            forall i :: 0 <= i < |rooms| ==> BuiltFrom(rooms[i], kids[i], includeInactive, rt.live, lights.live)
    ensures forall i :: 0 <= i < |rooms| ==> fresh(rooms[i]) && rooms[i].renderState == Off
  {
    rooms := [];
    var i := 0;
    while i < |children|
      invariant 0 <= i <= |children|
      invariant DistinctRecords(rooms)
      invariant var kids := LiveChildren(children[..i], tt.live);
                |rooms| == |kids| &&
                forall j :: 0 <= j < |rooms| ==> BuiltFrom(rooms[j], kids[j], includeInactive, rt.live, lights.live)
      invariant forall j :: 0 <= j < |rooms| ==> fresh(rooms[j]) && rooms[j].renderState == Off
    {
      var child := children[i];
      LiveChildrenStep(children, i, tt.live);
      if tt.IsLive(child.transform) {
        var found := Found(child, includeInactive);
        var renderers := CollectLive(found.renderers, rt.live);
        var ls := CollectLive(found.lights, lights.live);
        var rec := new RoomRendererRecord(child.transform, renderers, ls, tt);
        rooms := rooms + [rec];
      }
      i := i + 1;
    }
    assert children[..|children|] == children;
  }

  /** The centre `RefreshCenters` gives a room: that of the accumulated bounds of its live renderers, else its root's position. */
  function CentreOf(renderers: seq<int>, root: int, rendererLive: seq<bool>, boxes: seq<Bounds>,
                    transformLive: seq<bool>, position: seq<Vec3>): Vec3
  {
    var found := LiveBounds(renderers, rendererLive, boxes);
    if |found| > 0 then Center(Hull(found)) else RootPosition(root, transformLive, position)
  }

  /**
   * A room with a live renderer is centred on the least box that covers every live renderer's bounds; a room
   * without one is centred on its root, or on the origin without a live root.
   */
  lemma CentreOfLeastBox(renderers: seq<int>, root: int, rendererLive: seq<bool>, boxes: seq<Bounds>,
                         transformLive: seq<bool>, position: seq<Vec3>)
    ensures var found := LiveBounds(renderers, rendererLive, boxes);
            var c := CentreOf(renderers, root, rendererLive, boxes, transformLive, position);
            (|found| == 0 ==> c == RootPosition(root, transformLive, position)) &&
            (|found| > 0 ==>
               exists b :: c == Center(b) &&
                 (forall k :: 0 <= k < |found| ==> Contains(b, found[k])) &&
                 (forall o :: (forall k :: 0 <= k < |found| ==> Contains(o, found[k])) ==> Contains(o, b)))
  {
    var found := LiveBounds(renderers, rendererLive, boxes);
    if |found| > 0 {
      var b := Hull(found);
      forall k | 0 <= k < |found|
        ensures Contains(b, found[k])
      {
        HullCovers(found, k);
      }
      forall o | forall k :: 0 <= k < |found| ==> Contains(o, found[k])
        ensures Contains(o, b)
      {
        HullIsLeast(found, o);
      }
      assert CentreOf(renderers, root, rendererLive, boxes, transformLive, position) == Center(b);
    }
  }

  /** Two records are different objects. */
  ghost predicate Separate(a: RoomRendererRecord, b: RoomRendererRecord) {
    a != b
  }

  /**
   * No record is listed twice. The pairs are reached through `Separate` only, so that the fact is used
   * where a proof asks for it (`RecordsDiffer`) and not for every pair of records a proof mentions.
   */
  ghost predicate DistinctRecords(rooms: seq<RoomRendererRecord>) {
    forall i, j {:trigger Separate(rooms[i], rooms[j])} :: 0 <= i < j < |rooms| ==> Separate(rooms[i], rooms[j])
  }

  /** Records at two different positions of a registry without duplicates are different objects. */
  lemma RecordsDiffer(rooms: seq<RoomRendererRecord>, i: int, j: int)
    requires DistinctRecords(rooms) && 0 <= i < |rooms| && 0 <= j < |rooms| && i != j
    ensures rooms[i] != rooms[j]
  {
    if i < j {
      assert Separate(rooms[i], rooms[j]);
    } else {
      assert Separate(rooms[j], rooms[i]);
    }
  }

  /** A record lists no light and no renderer twice. */
  ghost predicate Unrepeated(a: RoomRendererRecord) {
    Distinct(a.lights) && Distinct(a.renderers)
  }

  /** Two records share no light and no renderer. */
  ghost predicate Apart(a: RoomRendererRecord, b: RoomRendererRecord) {
    Disjoint(a.lights, b.lights) && Disjoint(a.renderers, b.renderers)
  }

  /**
   * Every light and every renderer belongs to at most one room, and is listed there once; as with
   * `DistinctRecords`, the facts are reached through `Unrepeated` and `Apart` (`ListsApart`).
   */
  ghost predicate ListsDisjoint(rooms: seq<RoomRendererRecord>) {
    (forall i {:trigger Unrepeated(rooms[i])} :: 0 <= i < |rooms| ==> Unrepeated(rooms[i])) &&
    (forall i, j {:trigger Apart(rooms[i], rooms[j])} :: 0 <= i < j < |rooms| ==> Apart(rooms[i], rooms[j]))
  }

  /** The rooms at two different positions of disjoint lists share no light and no renderer. */
  lemma ListsApart(rooms: seq<RoomRendererRecord>, i: int, j: int)
    requires ListsDisjoint(rooms) && 0 <= i < |rooms| && 0 <= j < |rooms| && i != j
    ensures Disjoint(rooms[i].lights, rooms[j].lights) && Disjoint(rooms[i].renderers, rooms[j].renderers)
  {
    if i < j {
      assert Apart(rooms[i], rooms[j]);
    } else {
      assert Apart(rooms[j], rooms[i]);
    }
  }

  class RoomRegistry {
    var rooms: seq<RoomRendererRecord>

    ghost predicate Valid()
      reads this
    {
      DistinctRecords(rooms)
    }

    constructor ()
      ensures Valid() && rooms == []
    {
      rooms := [];
    }

    /**
     * `Rebuild(root, includeInactiveChildren)`: the previous rooms are dropped; without a root the registry
     * stays empty. Otherwise there is one new record, Off, per child with a live transform, in child order,
     * holding the live renderers and lights found below it; then every centre is refreshed.
     */
    method Rebuild(root: Option<Hierarchy>, includeInactive: bool, rt: RendererTable, tt: TransformTable,
                   lights: LightTable)
      requires rt.Valid() && tt.Valid()
      modifies this
      ensures Valid()
      ensures root.None? ==> rooms == []
      ensures root.Some? ==>
                var kids := LiveChildren(root.value.children, tt.live);
                |rooms| == |kids| &&
                forall i :: 0 <= i < |rooms| ==> BuiltFrom(rooms[i], kids[i], includeInactive, rt.live, lights.live)
      ensures forall i :: 0 <= i < |rooms| ==>
                fresh(rooms[i]) && rooms[i].renderState == Off &&
                rooms[i].center == CentreOf(rooms[i].renderers, rooms[i].root, rt.live, rt.bounds, tt.live, tt.position)
      ensures root.Some? && IsTree(root.value, includeInactive) ==> ListsDisjoint(rooms)
    {
      if root.None? {
        rooms := [];
        return;
      }
      var children := root.value.children;
      rooms := BuildRecords(children, includeInactive, rt, tt, lights);
      RefreshCenters(rt, tt);
      if IsTree(root.value, includeInactive) {
        BuiltTree(children, includeInactive, rt, tt, lights);
      }
    }

    /** The records built from a tree have disjoint, duplicate-free lists. */
    lemma BuiltTree(children: seq<ChildNode>, includeInactive: bool, rt: RendererTable, tt: TransformTable,
                    lights: LightTable)
      requires IsTree(Hierarchy(children), includeInactive)
      requires var kids := LiveChildren(children, tt.live);
               |rooms| == |kids| &&
               forall i :: 0 <= i < |rooms| ==> BuiltFrom(rooms[i], kids[i], includeInactive, rt.live, lights.live)
      ensures ListsDisjoint(rooms)
    {
      var kids := LiveChildren(children, tt.live);
      LiveChildrenTree(children, tt.live, includeInactive);
      forall i | 0 <= i < |rooms|
        ensures Distinct(rooms[i].lights) && Distinct(rooms[i].renderers)
      {
        FilterLiveDistinct(Found(kids[i], includeInactive).lights, lights.live);
        FilterLiveDistinct(Found(kids[i], includeInactive).renderers, rt.live);
      }
      forall i, j | 0 <= i < j < |rooms|
        ensures Disjoint(rooms[i].lights, rooms[j].lights) && Disjoint(rooms[i].renderers, rooms[j].renderers)
      {
        FilteredDisjoint(Found(kids[i], includeInactive).lights, Found(kids[j], includeInactive).lights, lights.live);
        FilteredDisjoint(Found(kids[i], includeInactive).renderers, Found(kids[j], includeInactive).renderers, rt.live);
      }
    }

    /**
     * `RefreshCenters`: every room's centre becomes that of the accumulated bounds of its live renderers, or
     * its root's position when none is live. Render states are kept.
     */
    method RefreshCenters(rt: RendererTable, tt: TransformTable)
      requires Valid() && rt.Valid() && tt.Valid()
      modifies set r | r in rooms
      ensures forall i :: 0 <= i < |rooms| ==>
                rooms[i].renderState == old(rooms[i].renderState) &&
                rooms[i].center == CentreOf(rooms[i].renderers, rooms[i].root, rt.live, rt.bounds, tt.live, tt.position)
    {
      var i := 0;
      while i < |rooms|
        invariant 0 <= i <= |rooms|
        invariant forall j :: 0 <= j < |rooms| ==> rooms[j].renderState == old(rooms[j].renderState)
        invariant forall j :: 0 <= j < i ==>
                    rooms[j].center == CentreOf(rooms[j].renderers, rooms[j].root, rt.live, rt.bounds, tt.live, tt.position)
      {
        var room := rooms[i];
        if !AnyLive(room.renderers, rt) {
          NoneLiveNoBounds(room.renderers, rt);
          room.center := if tt.IsLive(room.root) then tt.position[room.root] else Zero;
        } else {
          var has, b := AccumulateBounds(room.renderers, rt);
          room.center := if has then Center(b) else if tt.IsLive(room.root) then tt.position[room.root] else Zero;
        }
        i := i + 1;
      }
    }
  }

  /** Filtering keeps two disjoint lists disjoint. */
  lemma FilteredDisjoint(s: seq<int>, t: seq<int>, live: seq<bool>)
    requires Disjoint(s, t)
    ensures Disjoint(FilterLive(s, live), FilterLive(t, live))
  {
    var fs, ft := FilterLive(s, live), FilterLive(t, live);
    forall i, j | 0 <= i < |fs| && 0 <= j < |ft|
      ensures fs[i] != ft[j]
    {
      FilterLiveMembers(s, live, fs[i]);
      FilterLiveMembers(t, live, ft[j]);
    }
  }

  /** `!renderers.TrueForAll(r => !r)`: some renderer of the list is live. */
  function AnyLive(renderers: seq<int>, rt: RendererTable): bool
    reads rt
  {
    exists k :: 0 <= k < |renderers| && rt.IsLive(renderers[k])
  }

  /** Without a live renderer there are no live bounds. */
  lemma NoneLiveNoBounds(renderers: seq<int>, rt: RendererTable)
    requires rt.Valid() && !AnyLive(renderers, rt)
    ensures |LiveBounds(renderers, rt.live, rt.bounds)| == 0
  {
  }
}

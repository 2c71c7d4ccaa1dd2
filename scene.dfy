/**
 * The host engine's objects the two engines read and write, addressed by integer id.
 *
 * A destroyed Unity object compares equal to null; `live[id]` is false for such an object (and for an
 * id the table does not know). The tables are classes because the engines write their fields in place:
 * a light's intensity, shadow mode and shadow resolution, a renderer's enabled flag and rendering-layer
 * mask. The host may change anything between two calls into the model.
 */
module Scene {
  import opened Wrappers
  import opened Geometry
  import opened Masks
  import opened Sorting

  /** `LightShadows`. */
  datatype Shadows = NoShadows | Hard | Soft

  /** `LightShadowResolution`. */
  datatype ShadowResolution = FromQualitySettings | Low | Medium | High | VeryHigh

  class LightTable {
    var live: seq<bool>
    var intensity: seq<real>
    var shadows: seq<Shadows>
    var resolution: seq<ShadowResolution>

    ghost predicate Valid()
      reads this
    {
      |intensity| == |live| && |shadows| == |live| && |resolution| == |live|
    }

    /** `(bool) light`: the id names a light that has not been destroyed. */
    predicate IsLive(l: int)
      reads this
    {
      0 <= l < |live| && live[l]
    }
  }

  class RendererTable {
    var live: seq<bool>
    var bounds: seq<Bounds>
    var enabled: seq<bool>
    var layerMask: seq<uint32>

    ghost predicate Valid()
      reads this
    {
      |bounds| == |live| && |enabled| == |live| && |layerMask| == |live|
    }

    /** `(bool) renderer`. */
    predicate IsLive(r: int)
      reads this
    {
      0 <= r < |live| && live[r]
    }
  }

  class TransformTable {
    var live: seq<bool>
    var position: seq<Vec3>

    ghost predicate Valid()
      reads this
    {
      |position| == |live|
    }

    /** `(bool) transform`. */
    predicate IsLive(t: int)
      reads this
    {
      0 <= t < |live| && live[t]
    }
  }

  /**
   * What `GetComponentsInChildren` finds below one child of the rooms parent: its mesh renderers and lights
   * in hierarchy order, and the bounds of the first live box collider, if any.
   */
  datatype Components = Components(renderers: seq<int>, lights: seq<int>, collider: Option<Bounds>)

  /** One child of the rooms parent; `active` lists what an active-only search finds, `all` what a full search finds. */
  datatype ChildNode = ChildNode(transform: int, active: Components, all: Components)

  /** The children of a rooms parent, in child order. */
  datatype Hierarchy = Hierarchy(children: seq<ChildNode>)

  /** The components a search with the given `includeInactive` flag returns. */
  function Found(c: ChildNode, includeInactive: bool): Components {
    if includeInactive then c.all else c.active
  }

  ghost predicate Disjoint(s: seq<int>, t: seq<int>) {
    forall i, j :: 0 <= i < |s| && 0 <= j < |t| ==> s[i] != t[j]
  }

  /**
   * A hierarchy is a tree: the children are distinct transforms, and a renderer or light lies below exactly
   * one child and is found once.
   */
  ghost predicate IsTree(h: Hierarchy, includeInactive: bool) {
    (forall a, b :: 0 <= a < b < |h.children| ==> h.children[a].transform != h.children[b].transform) &&
    (forall a :: 0 <= a < |h.children| ==> Distinct(Found(h.children[a], includeInactive).lights)) &&
    (forall a :: 0 <= a < |h.children| ==> Distinct(Found(h.children[a], includeInactive).renderers)) &&
    (forall a, b :: 0 <= a < b < |h.children| ==>
       Disjoint(Found(h.children[a], includeInactive).lights, Found(h.children[b], includeInactive).lights)) &&
    (forall a, b :: 0 <= a < b < |h.children| ==>
       Disjoint(Found(h.children[a], includeInactive).renderers, Found(h.children[b], includeInactive).renderers))
  }

  /** The bounds of the renderers of `rs` that are live, in list order. */
  function LiveBounds(rs: seq<int>, live: seq<bool>, boxes: seq<Bounds>): (r: seq<Bounds>)
    ensures |r| <= |rs|
  {
    if |rs| == 0 then []
    else
      var x := rs[|rs| - 1];
      LiveBounds(rs[..|rs| - 1], live, boxes) +
      (if 0 <= x < |live| && live[x] && x < |boxes| then [boxes[x]] else [])
  }

  /** One more renderer of the list: its box joins the live boxes exactly when it is live. */
  lemma LiveBoundsStep(rs: seq<int>, m: int, live: seq<bool>, boxes: seq<Bounds>)
    requires 0 <= m < |rs|
    ensures LiveBounds(rs[..m + 1], live, boxes) == LiveBounds(rs[..m], live, boxes) +
              (if 0 <= rs[m] < |live| && live[rs[m]] && rs[m] < |boxes| then [boxes[rs[m]]] else [])
  {
    assert rs[..m + 1][..m] == rs[..m];
  }

  /** The live boxes are exactly the boxes of the live renderers of `rs`. */
  lemma {:induction false} LiveBoundsMembers(rs: seq<int>, live: seq<bool>, boxes: seq<Bounds>, b: Bounds)
    ensures b in LiveBounds(rs, live, boxes) <==>
              exists x :: x in rs && 0 <= x < |live| && live[x] && x < |boxes| && boxes[x] == b
  {
    if |rs| > 0 {
      var front := rs[..|rs| - 1];
      LiveBoundsMembers(front, live, boxes, b);
      assert rs == front + [rs[|rs| - 1]];
    }
  }

  /**
   * The loop both engines run over a room's renderers: the first live renderer's bounds, then `Encapsulate`
   * with each further live one; `has` tells whether any renderer was live.
   */
  method AccumulateBounds(renderers: seq<int>, rt: RendererTable) returns (has: bool, b: Bounds)
    ensures has <==> |LiveBounds(renderers, rt.live, rt.bounds)| > 0
    ensures has ==> b == Hull(LiveBounds(renderers, rt.live, rt.bounds))
  {
    b := Bounds(Zero, Zero);
    has := false;
    var m := 0;
    while m < |renderers|
      invariant 0 <= m <= |renderers|
      invariant has <==> |LiveBounds(renderers[..m], rt.live, rt.bounds)| > 0
      invariant has ==> b == Hull(LiveBounds(renderers[..m], rt.live, rt.bounds))
    {
      var r := renderers[m];
      LiveBoundsStep(renderers, m, rt.live, rt.bounds);
      ghost var prev := LiveBounds(renderers[..m], rt.live, rt.bounds);
      if 0 <= r < |rt.live| && rt.live[r] && r < |rt.bounds| {
        HullAppend(prev, rt.bounds[r]);
        if !has {
          b := rt.bounds[r];
          has := true;
        } else {
          b := Encapsulate(b, rt.bounds[r]);
        }
      } else {
        assert prev + [] == prev;
      }
      m := m + 1;
    }
    assert renderers[..|renderers|] == renderers;
  }
}

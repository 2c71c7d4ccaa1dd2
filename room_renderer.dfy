/**
 * Switching a whole room on or off: every live renderer of the room, then the room's render state, then,
 * when a room is switched off with a callback, the callback. The only callback the culling engine passes
 * is "zero this room's lights through the light cache", so the model takes the callback as the optional
 * cache to zero through.
 */
module RoomRendererUtils {
  import opened Wrappers
  import opened Scene
  import opened LightCaching
  import opened RoomRecords
  import opened LightIntensityUtils

  /** What `SetEnabled` leaves on renderer `r`: a live renderer of the room gets `isEnabled`, every other keeps its flag. */
  ghost predicate RendererSet(rs: seq<int>, live: seq<bool>, enabled0: seq<bool>, enabled: seq<bool>,
                              isEnabled: bool, r: int)
    requires |enabled0| == |enabled| == |live| && 0 <= r < |live|
  {
    if live[r] && r in rs then enabled[r] == isEnabled else enabled[r] == enabled0[r]
  }

  /** Switching renderer `r` after the renderers `done` extends what holds of `done` to `done + [r]`. */
  lemma RendererSetExtends(done: seq<int>, r: int, now: seq<int>, live: seq<bool>, enabled0: seq<bool>,
                           before: seq<bool>, enabled: seq<bool>, isEnabled: bool)
    requires now == done + [r] && |enabled0| == |before| == |live|
    requires forall k :: 0 <= k < |live| ==> RendererSet(done, live, enabled0, before, isEnabled, k)
    requires enabled == if 0 <= r < |live| && live[r] then before[r := isEnabled] else before
    ensures |enabled| == |live|
    ensures forall k :: 0 <= k < |live| ==> RendererSet(now, live, enabled0, enabled, isEnabled, k)
  {
    forall k | 0 <= k < |live|
      ensures RendererSet(now, live, enabled0, enabled, isEnabled, k)
    {
      assert RendererSet(done, live, enabled0, before, isEnabled, k);
      assert k in now <==> k in done || k == r;
    }
  }

  /** The render state a room gets when its renderers are switched to `isEnabled`. */
  function StateFor(isEnabled: bool): (s: RenderState)
    ensures s == On <==> isEnabled
  {
    if isEnabled then On else Off
  }

  /**
   * `SetEnabled(roomRenderer, isEnabled, onDisabled)`: nothing for a missing room. Otherwise each live renderer
   * is switched to `isEnabled` and the state becomes On exactly when enabling; when disabling with a cache,
   * the room's lights are then zeroed through it. The room's centre and the renderers' other fields are kept.
   */
  method SetEnabled(room: RoomRendererRecord?, isEnabled: bool, onDisabled: Option<LightCache>,
                    rt: RendererTable, lights: LightTable)
    requires rt.Valid() && lights.Valid() && (onDisabled.Some? ==> onDisabled.value.Valid())
    modifies room, rt, lights, if onDisabled.Some? then {onDisabled.value} else {}
    ensures rt.Valid() && lights.Valid() && (onDisabled.Some? ==> onDisabled.value.Valid())
    ensures rt.live == old(rt.live) && rt.bounds == old(rt.bounds) && rt.layerMask == old(rt.layerMask)
    ensures room == null ==> unchanged(rt) && unchanged(lights) && (onDisabled.Some? ==> unchanged(onDisabled.value))
    ensures room != null ==>
              room.renderState == StateFor(isEnabled) && room.center == old(room.center) &&
              forall r :: 0 <= r < |rt.live| ==> RendererSet(room.renderers, rt.live, old(rt.enabled), rt.enabled, isEnabled, r)
    ensures room != null && !isEnabled && onDisabled.Some? ==>
              var cache := onDisabled.value;
              lights.live == old(lights.live) && lights.resolution == old(lights.resolution) &&
              cache.originalIntensities ==
                CachedAll(old(cache.originalIntensities), room.lights, lights.live, old(lights.intensity)) &&
              cache.hadShadows == CachedAll(old(cache.hadShadows), room.lights, lights.live, ShadowFlags(old(lights.shadows))) &&
              forall l :: 0 <= l < |lights.live| ==>
                LightZeroed(room.lights, lights.live, old(lights.intensity), old(lights.shadows),
                            lights.intensity, lights.shadows, l)
    ensures room != null && (isEnabled || onDisabled.None?) ==>
              unchanged(lights) && (onDisabled.Some? ==> unchanged(onDisabled.value))
  {
    if room == null {
      return;
    }
    var rs := room.renderers;
    ghost var enabled0 := rt.enabled;
    var i := 0;
    while i < |rs|
      invariant 0 <= i <= |rs|
      modifies rt
      invariant rt.live == old(rt.live) && rt.bounds == old(rt.bounds) && rt.layerMask == old(rt.layerMask)
      invariant |rt.enabled| == |rt.live|
      invariant forall r :: 0 <= r < |rt.live| ==> RendererSet(rs[..i], rt.live, enabled0, rt.enabled, isEnabled, r)
    {
      var r := rs[i];
      ghost var before := rt.enabled;
      if rt.IsLive(r) {
        rt.enabled := rt.enabled[r := isEnabled];
      }
      assert rs[..i + 1] == rs[..i] + [r];
      RendererSetExtends(rs[..i], r, rs[..i + 1], rt.live, enabled0, before, rt.enabled, isEnabled);
      i := i + 1;
    }
    assert rs[..|rs|] == rs;
    room.renderState := StateFor(isEnabled);
    if !isEnabled && onDisabled.Some? {
      ZeroAll(room, onDisabled.value, lights);
    }
  }
}

/**
 * Per-light intensity of a room: full up to an inner distance, eased down to 0 at an outer distance, and
 * `ZeroAll`, which switches a room's lights off. Both cache each light's originals before they write it.
 *
 * `Vector3.Distance` from a light to the observer is an input: `dist[l]` for light `l`. `Mathf.Pow` is the
 * parameter `pow`; what the model proves about the falloff assumes only that `pow(t, p)` lies in [0, 1], and
 * for monotonicity that it grows with `t`, for `t` in [0, 1] and `p >= 1`.
 */
module LightIntensityUtils {
  import opened Geometry
  import opened Scene
  import opened LightCaching
  import opened RoomRecords

  /** `RoomLightIntensityConfig`. */
  datatype IntensityConfig = IntensityConfig(maxIntensityDistance: real, disableDistance: real, innerFalloffPower: real)

  /** `pow(t, p)` lies in [0, 1] for `t` in [0, 1] and `p >= 1`, as `Mathf.Pow` does. */
  ghost predicate PowInUnit(pow: (real, real) -> real) {
    forall t, p :: 0.0 <= t <= 1.0 && p >= 1.0 ==> 0.0 <= pow(t, p) <= 1.0
  }

  /** `pow(t, p)` does not decrease as `t` grows in [0, 1], for `p >= 1`. */
  ghost predicate PowMonotone(pow: (real, real) -> real) {
    forall t1, t2, p :: 0.0 <= t1 <= t2 <= 1.0 && p >= 1.0 ==> pow(t1, p) <= pow(t2, p)
  }

  /** The easing variable `t = (d - inner) / (outer - inner)` strictly between the two distances. */
  function Eased(d: real, inner: real, outer: real): (t: real)
    requires inner < d < outer
    ensures 0.0 < t < 1.0
  {
    QuotientInUnit(d - inner, outer - inner);
    (d - inner) / (outer - inner)
  }

  /** A quotient of a positive number by a larger one lies strictly between 0 and 1. */
  lemma QuotientInUnit(a: real, w: real)
    requires 0.0 < a < w
    ensures 0.0 < a / w < 1.0
  {
    var t := a / w;
    assert t * w == a;
    if t <= 0.0 {
      assert false;
    }
    if t >= 1.0 {
      assert false;
    }
  }

  /**
   * The intensity `Apply` gives a light at distance `d` whose original intensity is `maxI`: `maxI` up to
   * `inner`, 0 from `outer` on, and `maxI * (1 - t^p)` between.
   */
  function Falloff(d: real, inner: real, outer: real, p: real, maxI: real, pow: (real, real) -> real): real {
    if d <= inner then maxI
    else if d >= outer then 0.0
    else maxI * (1.0 - pow(Eased(d, inner, outer), p))
  }

  /** For a non-negative original, the falloff lies between 0 and the original. */
  lemma FalloffBounds(d: real, inner: real, outer: real, p: real, maxI: real, pow: (real, real) -> real)
    requires PowInUnit(pow) && p >= 1.0 && maxI >= 0.0
    ensures 0.0 <= Falloff(d, inner, outer, p, maxI, pow) <= maxI
  {
    if inner < d < outer {
      var e := pow(Eased(d, inner, outer), p);
      assert 0.0 <= e <= 1.0;
      assert maxI * (1.0 - e) <= maxI * 1.0;
    }
  }

  /** A light farther away is never brighter. */
  lemma FalloffNonIncreasing(d1: real, d2: real, inner: real, outer: real, p: real, maxI: real, pow: (real, real) -> real)
    requires PowInUnit(pow) && PowMonotone(pow) && p >= 1.0 && maxI >= 0.0 && d1 <= d2
    ensures Falloff(d2, inner, outer, p, maxI, pow) <= Falloff(d1, inner, outer, p, maxI, pow)
  {
    FalloffBounds(d1, inner, outer, p, maxI, pow);
    FalloffBounds(d2, inner, outer, p, maxI, pow);
    if inner < d1 && d2 < outer {
      var t1, t2 := Eased(d1, inner, outer), Eased(d2, inner, outer);
      assert t1 <= t2 by {
        assert d1 - inner <= d2 - inner;
      }
      var e1, e2 := pow(t1, p), pow(t2, p);
      assert e1 <= e2;
      assert maxI * (1.0 - e2) <= maxI * (1.0 - e1);
    }
  }

  /** The lights of `ls` that are live. */
  ghost function LiveIn(ls: seq<int>, live: seq<bool>): set<int> {
    set l | l in ls && 0 <= l < |live| && live[l]
  }

  /**
   * The cache dictionary `m` after `EnsureCached` of every light of `ls`, each live one not yet cached getting
   * the value `v` had before the first of them was touched.
   */
  ghost function CachedAll<V>(m: map<int, V>, ls: seq<int>, live: seq<bool>, v: seq<V>): map<int, V>
    requires |v| == |live|
  {
    map k | k in m.Keys + LiveIn(ls, live) :: if k in m then m[k] else v[k]
  }

  /** `shadows != LightShadows.None` per light. */
  function ShadowFlags(shadows: seq<Shadows>): (r: seq<bool>)
    ensures |r| == |shadows| && forall l :: 0 <= l < |r| ==> r[l] == (shadows[l] != NoShadows)
  {
    seq(|shadows|, l requires 0 <= l < |shadows| => shadows[l] != NoShadows)
  }

  /** Caching one more light `l` after `done`: `x` is the value offered for it, its first-seen value when it is new. */
  lemma CachedAllStep<V>(m: map<int, V>, done: seq<int>, l: int, live: seq<bool>, v: seq<V>, x: V)
    requires |v| == |live|
    requires 0 <= l < |live| && live[l] && l !in CachedAll(m, done, live, v) ==> x == v[l]
    ensures CachedAll(m, done + [l], live, v) ==
            if 0 <= l < |live| && live[l] then Remember(CachedAll(m, done, live, v), l, x)
            else CachedAll(m, done, live, v)
  {
    assert LiveIn(done + [l], live) == LiveIn(done, live) + (if 0 <= l < |live| && live[l] then {l} else {});
  }

  /** The original intensity a light is scaled from: cached before the call, or its intensity then. */
  function FirstSeen(originals: map<int, real>, intensity: seq<real>, l: int): real
    requires 0 <= l < |intensity|
  {
    if l in originals then originals[l] else intensity[l]
  }

  /**
   * What `Apply` leaves on light `l`: a live light of the room gets the falloff of its first-seen original at
   * its distance, and loses its shadows when that is not positive; every other light keeps both.
   */
  ghost predicate LightApplied(ls: seq<int>, live: seq<bool>, dist: seq<real>, originals0: map<int, real>,
                               intensity0: seq<real>, shadows0: seq<Shadows>, intensity: seq<real>,
                               shadows: seq<Shadows>, inner: real, outer: real, p: real,
                               pow: (real, real) -> real, l: int)
    requires |intensity0| == |shadows0| == |intensity| == |shadows| == |dist| == |live| && 0 <= l < |live|
  {
    if live[l] && l in ls then
      var target := AppliedTarget(dist, originals0, intensity0, inner, outer, p, pow, l);
      intensity[l] == target && shadows[l] == (if target <= 0.0 then NoShadows else shadows0[l])
    else
      intensity[l] == intensity0[l] && shadows[l] == shadows0[l]
  }

  /** The intensity `Apply` gives light `l`: the falloff of its first-seen original at its distance. */
  function AppliedTarget(dist: seq<real>, originals0: map<int, real>, intensity0: seq<real>, inner: real,
                         outer: real, p: real, pow: (real, real) -> real, l: int): real
    requires 0 <= l < |dist| && l < |intensity0|
  {
    Falloff(dist[l], inner, outer, p, FirstSeen(originals0, intensity0, l), pow)
  }

  /** Writing light `l` as `Apply` does extends what holds of the lights `done` to `done + [l]`. */
  lemma AppliedExtends(done: seq<int>, l: int, now: seq<int>, live: seq<bool>, dist: seq<real>,
                       originals0: map<int, real>, intensity0: seq<real>, shadows0: seq<Shadows>,
                       before: seq<real>, beforeShadows: seq<Shadows>, intensity: seq<real>, shadows: seq<Shadows>,
                       inner: real, outer: real, p: real, pow: (real, real) -> real)
    requires now == done + [l]
    requires |intensity0| == |shadows0| == |before| == |beforeShadows| == |dist| == |live|
    requires forall k :: 0 <= k < |live| ==>
               LightApplied(done, live, dist, originals0, intensity0, shadows0, before, beforeShadows,
                            inner, outer, p, pow, k)
    requires !(0 <= l < |live| && live[l]) ==> intensity == before && shadows == beforeShadows
    requires 0 <= l < |live| && live[l] ==>
               var target := AppliedTarget(dist, originals0, intensity0, inner, outer, p, pow, l);
               intensity == before[l := target] &&
               shadows == (if target <= 0.0 then beforeShadows[l := NoShadows] else beforeShadows)
    ensures |intensity| == |shadows| == |live|
    ensures forall k :: 0 <= k < |live| ==>
              LightApplied(now, live, dist, originals0, intensity0, shadows0, intensity, shadows,
                           inner, outer, p, pow, k)
  {
    forall k | 0 <= k < |live|
      ensures LightApplied(now, live, dist, originals0, intensity0, shadows0, intensity, shadows,
                           inner, outer, p, pow, k)
    {
      assert LightApplied(done, live, dist, originals0, intensity0, shadows0, before, beforeShadows,
                          inner, outer, p, pow, k);
      assert k in now <==> k in done || k == l;
    }
  }

  /** What `ZeroAll` leaves on light `l`: a live light of the room is dark and casts no shadows; others are kept. */
  ghost predicate LightZeroed(ls: seq<int>, live: seq<bool>, intensity0: seq<real>, shadows0: seq<Shadows>,
                              intensity: seq<real>, shadows: seq<Shadows>, l: int)
    requires |intensity0| == |shadows0| == |intensity| == |shadows| == |live| && 0 <= l < |live|
  {
    if live[l] && l in ls then intensity[l] == 0.0 && shadows[l] == NoShadows
    else intensity[l] == intensity0[l] && shadows[l] == shadows0[l]
  }

  /**
   * `Apply(room, camPos, cache, cfg)`: nothing for a missing room or one that is Off. Otherwise the distances
   * are normalised (inner at least 0, outer at least inner, exponent at least 1), and each live light of
   * the room is cached, then set to the falloff of its original at its distance.
   */
  method Apply(room: RoomRendererRecord?, dist: seq<real>, cache: LightCache, cfg: IntensityConfig,
               pow: (real, real) -> real, lights: LightTable)
    requires cache.Valid() && lights.Valid() && |dist| == |lights.live|
    modifies cache, lights
    ensures cache.Valid() && lights.Valid() && lights.live == old(lights.live) && lights.resolution == old(lights.resolution)
    ensures room == null || room.renderState == Off ==>
              unchanged(lights) && cache.originalIntensities == old(cache.originalIntensities) &&
              cache.hadShadows == old(cache.hadShadows)
    ensures room != null && room.renderState == On ==>
              var inner := Max(0.0, cfg.maxIntensityDistance);
              var outer := Max(inner, cfg.disableDistance);
              var p := Max(1.0, cfg.innerFalloffPower);
              cache.originalIntensities ==
                CachedAll(old(cache.originalIntensities), room.lights, lights.live, old(lights.intensity)) &&
              cache.hadShadows == CachedAll(old(cache.hadShadows), room.lights, lights.live, ShadowFlags(old(lights.shadows))) &&
              forall l :: 0 <= l < |lights.live| ==>
                LightApplied(room.lights, lights.live, dist, old(cache.originalIntensities), old(lights.intensity),
                             old(lights.shadows), lights.intensity, lights.shadows, inner, outer, p, pow, l)
  {
    if room == null || room.renderState == Off {
      return;
    }
    var inner := Max(0.0, cfg.maxIntensityDistance);
    var outer := Max(inner, cfg.disableDistance);
    var p := Max(1.0, cfg.innerFalloffPower);
    ghost var originals0, had0 := cache.originalIntensities, cache.hadShadows;
    ghost var intensity0, shadows0 := lights.intensity, lights.shadows;
    var ls := room.lights;
    var i := 0;
    while i < |ls|
      invariant 0 <= i <= |ls|
      invariant cache.Valid() && lights.Valid() && lights.live == old(lights.live) && lights.resolution == old(lights.resolution)
      invariant cache.originalIntensities == CachedAll(originals0, ls[..i], lights.live, intensity0)
      invariant cache.hadShadows == CachedAll(had0, ls[..i], lights.live, ShadowFlags(shadows0))
      invariant forall l :: 0 <= l < |lights.live| ==>
                  LightApplied(ls[..i], lights.live, dist, originals0, intensity0, shadows0, lights.intensity,
                               lights.shadows, inner, outer, p, pow, l)
    {
      assert ls[..i + 1] == ls[..i] + [ls[i]];
      ApplyStep(ls[..i], ls[i], ls[..i + 1], dist, cache, inner, outer, p, pow, lights, originals0, had0, intensity0, shadows0);
      i := i + 1;
    }
    assert ls[..|ls|] == ls;
  }

  /** One light `l` of `Apply`'s loop, after the lights `done`; `now` is `done` followed by `l`. */
  method ApplyStep(done: seq<int>, l: int, ghost now: seq<int>, dist: seq<real>, cache: LightCache, inner: real,
                   outer: real, p: real, pow: (real, real) -> real, lights: LightTable,
                   ghost originals0: map<int, real>, ghost had0: map<int, bool>, ghost intensity0: seq<real>,
                   ghost shadows0: seq<Shadows>)
    requires now == done + [l] && cache.Valid() && lights.Valid() && |dist| == |lights.live|
    requires |intensity0| == |shadows0| == |lights.live|
    requires cache.originalIntensities == CachedAll(originals0, done, lights.live, intensity0)
    requires cache.hadShadows == CachedAll(had0, done, lights.live, ShadowFlags(shadows0))
    requires forall k :: 0 <= k < |lights.live| ==>
               LightApplied(done, lights.live, dist, originals0, intensity0, shadows0, lights.intensity,
                            lights.shadows, inner, outer, p, pow, k)
    modifies cache, lights
    ensures cache.Valid() && lights.Valid() && lights.live == old(lights.live) && lights.resolution == old(lights.resolution)
    ensures cache.originalIntensities == CachedAll(originals0, now, lights.live, intensity0)
    ensures cache.hadShadows == CachedAll(had0, now, lights.live, ShadowFlags(shadows0))
    ensures forall k :: 0 <= k < |lights.live| ==>
              LightApplied(now, lights.live, dist, originals0, intensity0, shadows0, lights.intensity,
                           lights.shadows, inner, outer, p, pow, k)
  {
    ghost var before, beforeShadows := lights.intensity, lights.shadows;
    if lights.IsLive(l) {
      assert l !in done ==> lights.intensity[l] == intensity0[l] && lights.shadows[l] == shadows0[l] by {
        if l !in done {
          assert LightApplied(done, lights.live, dist, originals0, intensity0, shadows0, lights.intensity,
                              lights.shadows, inner, outer, p, pow, l);
        }
      }
      ApplyLive(done, l, now, dist, cache, inner, outer, p, pow, lights, originals0, had0, intensity0, shadows0);
    } else {
      CachedAllStep(originals0, done, l, lights.live, intensity0, 0.0);
      CachedAllStep(had0, done, l, lights.live, ShadowFlags(shadows0), false);
    }
    AppliedExtends(done, l, now, lights.live, dist, originals0, intensity0, shadows0, before, beforeShadows,
                   lights.intensity, lights.shadows, inner, outer, p, pow);
  }

  /** `ApplyStep` on a live light: cache it, then write its falloff and drop its shadows when that is not positive. */
  method ApplyLive(done: seq<int>, l: int, ghost now: seq<int>, dist: seq<real>, cache: LightCache, inner: real,
                   outer: real, p: real, pow: (real, real) -> real, lights: LightTable,
                   ghost originals0: map<int, real>, ghost had0: map<int, bool>, ghost intensity0: seq<real>,
                   ghost shadows0: seq<Shadows>)
    requires now == done + [l] && cache.Valid() && lights.Valid() && lights.IsLive(l) && |dist| == |lights.live|
    requires |intensity0| == |shadows0| == |lights.live|
    requires cache.originalIntensities == CachedAll(originals0, done, lights.live, intensity0)
    requires cache.hadShadows == CachedAll(had0, done, lights.live, ShadowFlags(shadows0))
    requires l !in done ==> lights.intensity[l] == intensity0[l] && lights.shadows[l] == shadows0[l]
    modifies cache, lights
    ensures cache.Valid() && lights.Valid() && lights.live == old(lights.live) && lights.resolution == old(lights.resolution)
    ensures cache.originalIntensities == CachedAll(originals0, now, lights.live, intensity0)
    ensures cache.hadShadows == CachedAll(had0, now, lights.live, ShadowFlags(shadows0))
    ensures var target := AppliedTarget(dist, originals0, intensity0, inner, outer, p, pow, l);
            lights.intensity == old(lights.intensity)[l := target] &&
            lights.shadows == (if target <= 0.0 then old(lights.shadows)[l := NoShadows] else old(lights.shadows))
  {
    CachedAllStep(originals0, done, l, lights.live, intensity0, lights.intensity[l]);
    CachedAllStep(had0, done, l, lights.live, ShadowFlags(shadows0), lights.shadows[l] != NoShadows);
    cache.EnsureCached(l, lights);
    var maxI := OriginalIntensity(cache.originalIntensities, l, lights.live, lights.intensity);
    assert maxI == FirstSeen(originals0, intensity0, l);
    var d := dist[l];
    var target := Falloff(d, inner, outer, p, maxI, pow);
    lights.intensity := lights.intensity[l := target];
    if target <= 0.0 && lights.shadows[l] != NoShadows {
      lights.shadows := lights.shadows[l := NoShadows];
    }
    assert target <= 0.0 ==> lights.shadows == old(lights.shadows)[l := NoShadows];
  }

  /** `ZeroAll(room, cache)`: nothing for a missing room; otherwise each live light is cached, then darkened and unshadowed. */
  method ZeroAll(room: RoomRendererRecord?, cache: LightCache, lights: LightTable)
    requires cache.Valid() && lights.Valid()
    modifies cache, lights
    ensures cache.Valid() && lights.Valid() && lights.live == old(lights.live) && lights.resolution == old(lights.resolution)
    ensures room == null ==>
              unchanged(lights) && cache.originalIntensities == old(cache.originalIntensities) &&
              cache.hadShadows == old(cache.hadShadows)
    ensures room != null ==>
              cache.originalIntensities ==
                CachedAll(old(cache.originalIntensities), room.lights, lights.live, old(lights.intensity)) &&
              cache.hadShadows == CachedAll(old(cache.hadShadows), room.lights, lights.live, ShadowFlags(old(lights.shadows))) &&
              forall l :: 0 <= l < |lights.live| ==>
                LightZeroed(room.lights, lights.live, old(lights.intensity), old(lights.shadows),
                            lights.intensity, lights.shadows, l)
  {
    if room == null {
      return;
    }
    ghost var originals0, had0 := cache.originalIntensities, cache.hadShadows;
    ghost var intensity0, shadows0 := lights.intensity, lights.shadows;
    var ls := room.lights;
    var i := 0;
    while i < |ls|
      invariant 0 <= i <= |ls|
      invariant cache.Valid() && lights.Valid() && lights.live == old(lights.live) && lights.resolution == old(lights.resolution)
      invariant cache.originalIntensities == CachedAll(originals0, ls[..i], lights.live, intensity0)
      invariant cache.hadShadows == CachedAll(had0, ls[..i], lights.live, ShadowFlags(shadows0))
      invariant forall l :: 0 <= l < |lights.live| ==>
                  LightZeroed(ls[..i], lights.live, intensity0, shadows0, lights.intensity, lights.shadows, l)
    {
      assert ls[..i + 1] == ls[..i] + [ls[i]];
      ZeroStep(ls[..i], ls[i], ls[..i + 1], cache, lights, originals0, had0, intensity0, shadows0);
      i := i + 1;
    }
    assert ls[..|ls|] == ls;
  }

  /** One light `l` of `ZeroAll`'s loop, after the lights `done`; `now` is `done` followed by `l`. */
  method ZeroStep(done: seq<int>, l: int, ghost now: seq<int>, cache: LightCache, lights: LightTable,
                  ghost originals0: map<int, real>, ghost had0: map<int, bool>, ghost intensity0: seq<real>,
                  ghost shadows0: seq<Shadows>)
    requires now == done + [l] && cache.Valid() && lights.Valid()
    requires |intensity0| == |shadows0| == |lights.live|
    requires cache.originalIntensities == CachedAll(originals0, done, lights.live, intensity0)
    requires cache.hadShadows == CachedAll(had0, done, lights.live, ShadowFlags(shadows0))
    requires forall k :: 0 <= k < |lights.live| ==>
               LightZeroed(done, lights.live, intensity0, shadows0, lights.intensity, lights.shadows, k)
    modifies cache, lights
    ensures cache.Valid() && lights.Valid() && lights.live == old(lights.live) && lights.resolution == old(lights.resolution)
    ensures cache.originalIntensities == CachedAll(originals0, now, lights.live, intensity0)
    ensures cache.hadShadows == CachedAll(had0, now, lights.live, ShadowFlags(shadows0))
    ensures forall k :: 0 <= k < |lights.live| ==>
              LightZeroed(now, lights.live, intensity0, shadows0, lights.intensity, lights.shadows, k)
  {
    ghost var before, beforeShadows := lights.intensity, lights.shadows;
    if lights.IsLive(l) {
      assert l !in done ==> lights.intensity[l] == intensity0[l] && lights.shadows[l] == shadows0[l] by {
        if l !in done {
          assert LightZeroed(done, lights.live, intensity0, shadows0, lights.intensity, lights.shadows, l);
        }
      }
      CachedAllStep(originals0, done, l, lights.live, intensity0, lights.intensity[l]);
      CachedAllStep(had0, done, l, lights.live, ShadowFlags(shadows0), lights.shadows[l] != NoShadows);
      cache.EnsureCached(l, lights);
      lights.intensity := lights.intensity[l := 0.0];
      if lights.shadows[l] != NoShadows {
        lights.shadows := lights.shadows[l := NoShadows];
      }
    } else {
      CachedAllStep(originals0, done, l, lights.live, intensity0, 0.0);
      CachedAllStep(had0, done, l, lights.live, ShadowFlags(shadows0), false);
    }
    forall k | 0 <= k < |lights.live|
      ensures LightZeroed(now, lights.live, intensity0, shadows0, lights.intensity, lights.shadows, k)
    {
      assert LightZeroed(done, lights.live, intensity0, shadows0, before, beforeShadows, k);
      assert k in now <==> k in done || k == l;
    }
  }
}

/**
 * `RoomCullingService`: the one service of the culling engine. It owns the light cache, the room registry,
 * the shadow selection and the time-slicing stepper, keeps the squared room thresholds, and on each tick
 * re-checks a slice of the rooms before applying intensities and shadows to all of them.
 *
 * The user's position, the light distances, `Mathf.Pow` and the engine's objects are parameters; the
 * render-pipeline shadow distance the service pushes is kept as a ghost log of the values pushed.
 */
module CullingService {
  import opened Wrappers
  import opened Geometry
  import opened Scene
  import opened CullingConfig
  import opened TimeSlicing
  import opened LightCaching
  import opened RoomRecords
  import opened LightIntensityUtils
  import opened RoomRendererUtils
  import opened ShadowSelection
  import opened Registry
  import opened CullingPass
  import opened CullingRules

  class RoomCullingService {
    const config: RoomCullingConfig
    const lightCache: LightCache
    const registry: RoomRegistry
    const shadowSelection: ShadowSelectionService
    const stepper: TimeSliceStepper
    var roomEnableSqr: real
    var roomDisableSqr: real
    var enabledRooms: seq<RoomRendererRecord>
    /** Every value handed to `ShadowDistanceSetter.Set`, oldest first. */
    ghost var shadowDistanceSets: seq<real>

    /**
     * The owned parts are consistent and the registry's rooms are distinct records whose light and renderer
     * lists are duplicate-free and pairwise disjoint.
     */
    ghost predicate Valid()
      reads this, lightCache, registry, stepper
    {
      lightCache.Valid() && registry.Valid() && stepper.Valid() && ListsDisjoint(registry.rooms)
    }

    /** The config is validated and the squared thresholds are those of its room distances. */
    ghost predicate Tuned()
      reads this, config
    {
      Validated(config.Values()) &&
      roomEnableSqr == config.roomEnableDistance * config.roomEnableDistance &&
      roomDisableSqr == config.roomDisableDistance * config.roomDisableDistance
    }

    /** What a check reads besides the room: the user's position, the tolerance and the two thresholds. */
    function ProbeAt(user: Vec3): (p: Probe)
      reads this, config
      ensures p.user == user && p.verticalTolerance == config.verticalTolerance
      ensures p.enableSqr == roomEnableSqr && p.disableSqr == roomDisableSqr
    {
      Probe(user, config.verticalTolerance, roomEnableSqr, roomDisableSqr)
    }

    /**
     * The new service validates the config and computes the thresholds from it; it owns an empty cache, an
     * empty registry, an empty selection and a stepper at index 0.
     */
    constructor (config: RoomCullingConfig)
      modifies config
      ensures Valid() && Tuned() && this.config == config
      ensures config.Values() == Validate(old(config.Values()))
      ensures config.applyMaxShadowDistanceToRenderPipeline == old(config.applyMaxShadowDistanceToRenderPipeline)
      ensures fresh(lightCache) && fresh(registry) && fresh(shadowSelection) && fresh(stepper)
      ensures lightCache.originalIntensities == map[] && lightCache.hadShadows == map[]
      ensures registry.rooms == [] && enabledRooms == [] && shadowSelection.candidates == []
      ensures !stepper.fullSweep && stepper.head == 0
      ensures shadowDistanceSets ==
                if config.applyMaxShadowDistanceToRenderPipeline then [config.maxShadowDistance] else []
    {
      this.config := config;
      enabledRooms := [];
      lightCache := new LightCache();
      registry := new RoomRegistry();
      shadowSelection := new ShadowSelectionService();
      stepper := new TimeSliceStepper();
      shadowDistanceSets := [];
      new;
      config.ValidateValues();
      RecomputeDistances();
    }

    /**
     * `RecomputeDistances`: the thresholds become the squares of the room distances, and the maximum shadow
     * distance is pushed to the render pipeline when the config asks for it.
     */
    method RecomputeDistances()
      modifies this
      ensures roomEnableSqr == config.roomEnableDistance * config.roomEnableDistance
      ensures roomDisableSqr == config.roomDisableDistance * config.roomDisableDistance
      ensures shadowDistanceSets == old(shadowDistanceSets) +
                if config.applyMaxShadowDistanceToRenderPipeline then [config.maxShadowDistance] else []
      ensures enabledRooms == old(enabledRooms)
    {
      roomEnableSqr := config.roomEnableDistance * config.roomEnableDistance;
      roomDisableSqr := config.roomDisableDistance * config.roomDisableDistance;
      if config.applyMaxShadowDistanceToRenderPipeline {
        shadowDistanceSets := shadowDistanceSets + [config.maxShadowDistance];
      }
    }

    /** `OnConfigChanged`: validate, recompute the thresholds, and schedule a full sweep. */
    method OnConfigChanged()
      requires Valid()
      modifies config, this, stepper
      ensures Valid() && Tuned()
      ensures config.Values() == Validate(old(config.Values()))
      ensures config.applyMaxShadowDistanceToRenderPipeline == old(config.applyMaxShadowDistanceToRenderPipeline)
      ensures stepper.fullSweep && stepper.head == 0
      ensures enabledRooms == old(enabledRooms)
      ensures shadowDistanceSets == old(shadowDistanceSets) +
                if config.applyMaxShadowDistanceToRenderPipeline then [config.maxShadowDistance] else []
    {
      config.ValidateValues();
      RecomputeDistances();
      stepper.StartFullSweep();
    }

    /** `RefreshCenters`: every room is re-centred as the registry does it; render states are kept. */
    method RefreshCenters(rt: RendererTable, tt: TransformTable)
      requires Valid() && rt.Valid() && tt.Valid()
      modifies set r | r in registry.rooms
      ensures Valid()
      ensures forall i :: 0 <= i < |registry.rooms| ==>
                registry.rooms[i].renderState == old(registry.rooms[i].renderState) &&
                registry.rooms[i].center ==
                  CentreOf(registry.rooms[i].renderers, registry.rooms[i].root, rt.live, rt.bounds, tt.live, tt.position)
    {
      registry.RefreshCenters(rt, tt);
    }

    /**
     * What `ApplyIntensityAndShadows` leaves, against the light state `(m0, h0, i0, s0, res0)` and the
     * candidate list `c0` it started from, with `mid` the shadows between its two halves: `EnabledRooms` holds
     * the rooms that are On, every light is settled, and the shadow selection ran over the lights of the
     * enabled rooms with the derived configuration.
     */
    ghost predicate Settled(m0: map<int, real>, h0: map<int, bool>, i0: seq<real>, s0: seq<Shadows>,
                            res0: seq<ShadowResolution>, c0: seq<Candidate>, dist: seq<real>,
                            pow: (real, real) -> real, lights: LightTable, mid: seq<Shadows>)
      reads this, config, registry, registry.rooms, enabledRooms, lightCache, shadowSelection, lights
    {
      var rooms := registry.rooms;
      var states := StatesOf(rooms);
      var live := lights.live;
      lights.Valid() && |i0| == |live| && |s0| == |live| && |res0| == |live| && |dist| == |live| && |mid| == |live| &&
      enabledRooms == Enabled(rooms, states) &&
      (forall l :: 0 <= l < |live| ==>
         LightSettled(rooms, states, IntensityConfigFor(config.Values()), pow, dist, live, m0, h0, i0, s0,
                      lightCache.originalIntensities, lightCache.hadShadows, lights.intensity, mid, lights.shadows, l)) &&
      Chosen(AllLights(enabledRooms), OnLights(enabledRooms), ShadowConfigFor(config.Values()),
             World(lightCache.hadShadows, live, lights.intensity, mid, dist), res0, c0,
             shadowSelection.candidates, lights.shadows, lights.resolution)
    }

    /**
     * `ApplyIntensityAndShadows`: every room that is On is listed in `EnabledRooms` and has its lights set to
     * the falloff, every other room's lights are zeroed, then the shadow selection runs over the enabled rooms.
     */
    method ApplyIntensityAndShadows(dist: seq<real>, pow: (real, real) -> real, lights: LightTable)
      returns (ghost mid: seq<Shadows>)
      requires Valid() && lights.Valid() && |dist| == |lights.live|
      modifies this, lightCache, shadowSelection, lights
      ensures Valid() && lights.Valid() && lights.live == old(lights.live)
      ensures roomEnableSqr == old(roomEnableSqr) && roomDisableSqr == old(roomDisableSqr)
      ensures shadowDistanceSets == old(shadowDistanceSets)
      ensures Settled(old(lightCache.originalIntensities), old(lightCache.hadShadows), old(lights.intensity),
                      old(lights.shadows), old(lights.resolution), old(shadowSelection.candidates), dist, pow,
                      lights, mid)
    {
      ghost var m0, h0 := lightCache.originalIntensities, lightCache.hadShadows;
      ghost var i0, s0 := lights.intensity, lights.shadows;
      ghost var rooms := registry.rooms;
      ghost var states := StatesOf(rooms);
      var icfg := IntensityConfigFor(config.Values());
      IntensityPass(icfg, dist, pow, lights, states);
      mid := lights.shadows;
      ShadowPass(dist, lights, states);
      forall l | 0 <= l < |lights.live|
        ensures LightSettled(rooms, states, icfg, pow, dist, lights.live, m0, h0, i0, s0,
                             lightCache.originalIntensities, lightCache.hadShadows, lights.intensity, mid,
                             lights.shadows, l)
      {
        Settle(rooms, states, icfg, pow, dist, lights.live, m0, h0, i0, s0, lightCache.originalIntensities,
               lightCache.hadShadows, lights.intensity, mid, lights.shadows, l);
      }
    }

    /**
     * The second half of `ApplyIntensityAndShadows`: the shadow configuration is derived from the config and
     * the selection runs over `EnabledRooms`, whose lights are those of the rooms that are On; the shadows of
     * every other light are left alone.
     */
    method ShadowPass(dist: seq<real>, lights: LightTable, ghost states: seq<RenderState>)
      requires lights.Valid() && |dist| == |lights.live|
      requires states == StatesOf(registry.rooms) && enabledRooms == Enabled(registry.rooms, states)
      modifies shadowSelection, lights
      ensures lights.Valid() && lights.live == old(lights.live) && lights.intensity == old(lights.intensity)
      ensures Chosen(AllLights(enabledRooms), OnLights(enabledRooms), ShadowConfigFor(config.Values()),
                     World(lightCache.hadShadows, lights.live, lights.intensity, old(lights.shadows), dist),
                     old(lights.resolution), old(shadowSelection.candidates), shadowSelection.candidates,
                     lights.shadows, lights.resolution)
      ensures forall l :: 0 <= l < |lights.live| ==>
                (lights.live[l] && InRoomsWith(registry.rooms, states, |registry.rooms|, On, l)) ||
                lights.shadows[l] == old(lights.shadows)[l]
    {
      ghost var rooms := registry.rooms;
      var scfg := ShadowConfigFor(config.Values());
      ghost var all, on := AllLights(enabledRooms), OnLights(enabledRooms);
      ghost var w := World(lightCache.hadShadows, lights.live, lights.intensity, lights.shadows, dist);
      shadowSelection.Apply(enabledRooms, dist, lightCache, scfg, lights);
      assert OnLights(enabledRooms) == on;
      assert rooms[..|rooms|] == rooms && states[..|states|] == states;
      forall l | 0 <= l < |lights.live| && !(lights.live[l] && InRoomsWith(rooms, states, |rooms|, On, l))
        ensures lights.shadows[l] == old(lights.shadows)[l]
      {
        EnabledLights(rooms, states, |rooms|, l);
        ChosenLeavesOthers(all, on, scfg, w, old(lights.resolution), old(shadowSelection.candidates),
                           shadowSelection.candidates, lights.shadows, lights.resolution, l);
      }
    }

    /**
     * The loop of `ApplyIntensityAndShadows` over the rooms, whose states are `states`: afterwards
     * `EnabledRooms` lists the rooms that are On, every live light of the rooms is cached, the getters report
     * what they did, and every light has passed.
     */
    method IntensityPass(icfg: IntensityConfig, dist: seq<real>, pow: (real, real) -> real, lights: LightTable,
                         ghost states: seq<RenderState>)
      requires Valid() && lights.Valid() && |dist| == |lights.live| && states == StatesOf(registry.rooms)
      modifies this, lightCache, lights
      ensures Valid() && lights.Valid() && lights.live == old(lights.live) && lights.resolution == old(lights.resolution)
      ensures roomEnableSqr == old(roomEnableSqr) && roomDisableSqr == old(roomDisableSqr)
      ensures shadowDistanceSets == old(shadowDistanceSets)
      ensures enabledRooms == Enabled(registry.rooms, states)
      ensures forall l :: 0 <= l < |lights.live| ==>
                OriginalsKept(old(lightCache.originalIntensities), old(lightCache.hadShadows), old(lights.intensity),
                              old(lights.shadows), lightCache.originalIntensities, lightCache.hadShadows,
                              lights.intensity, lights.shadows, lights.live, l)
      ensures forall l :: 0 <= l < |lights.live| ==>
                CachedIn(registry.rooms, |registry.rooms|, lights.live, lightCache.originalIntensities,
                         lightCache.hadShadows, l)
      ensures forall l :: 0 <= l < |lights.live| ==>
                Passed(registry.rooms, states, |registry.rooms|, icfg, pow, dist, old(lightCache.originalIntensities),
                       old(lights.intensity), old(lights.shadows), lights.live, lights.intensity, lights.shadows, l)
    {
      ghost var m0, h0 := lightCache.originalIntensities, lightCache.hadShadows;
      ghost var i0, s0 := lights.intensity, lights.shadows;
      var rooms := registry.rooms;
      StatesAt(rooms);
      enabledRooms := [];
      var k := 0;
      while k < |rooms|
        invariant 0 <= k <= |rooms|
        invariant forall j :: 0 <= j < |rooms| ==> rooms[j].renderState == states[j]
        invariant lightCache.Valid() && lights.Valid() && lights.live == old(lights.live)
        invariant lights.resolution == old(lights.resolution)
        invariant roomEnableSqr == old(roomEnableSqr) && roomDisableSqr == old(roomDisableSqr)
        invariant shadowDistanceSets == old(shadowDistanceSets)
        invariant enabledRooms == Enabled(rooms[..k], states[..k])
        invariant forall l :: 0 <= l < |lights.live| ==>
                    OriginalsKept(m0, h0, i0, s0, lightCache.originalIntensities, lightCache.hadShadows,
                                  lights.intensity, lights.shadows, lights.live, l)
        invariant forall l :: 0 <= l < |lights.live| ==>
                    CachedIn(rooms, k, lights.live, lightCache.originalIntensities, lightCache.hadShadows, l)
        invariant forall l :: 0 <= l < |lights.live| ==>
                    Passed(rooms, states, k, icfg, pow, dist, m0, i0, s0, lights.live, lights.intensity,
                           lights.shadows, l)
      {
        PassRoom(k, k + 1, icfg, dist, pow, lights, states, m0, h0, i0, s0);
        k := k + 1;
      }
      assert rooms[..k] == rooms && states[..k] == states;
    }

    /** One room of the pass: an On room is listed and gets the falloff, any other room is zeroed. */
    method PassRoom(k: int, next: int, icfg: IntensityConfig, dist: seq<real>, pow: (real, real) -> real, lights: LightTable,
                    ghost states: seq<RenderState>, ghost m0: map<int, real>, ghost h0: map<int, bool>,
                    ghost i0: seq<real>, ghost s0: seq<Shadows>)
      requires lightCache.Valid() && lights.Valid() && |dist| == |lights.live| && |i0| == |s0| == |lights.live|
      requires ListsDisjoint(registry.rooms) && |states| == |registry.rooms| && 0 <= k < |registry.rooms|
      requires registry.rooms[k].renderState == states[k] && next == k + 1
      requires enabledRooms == Enabled(registry.rooms[..k], states[..k])
      requires forall l :: 0 <= l < |lights.live| ==>
                 OriginalsKept(m0, h0, i0, s0, lightCache.originalIntensities, lightCache.hadShadows,
                               lights.intensity, lights.shadows, lights.live, l)
      requires forall l :: 0 <= l < |lights.live| ==>
                 CachedIn(registry.rooms, k, lights.live, lightCache.originalIntensities, lightCache.hadShadows, l)
      requires forall l :: 0 <= l < |lights.live| ==>
                 Passed(registry.rooms, states, k, icfg, pow, dist, m0, i0, s0, lights.live, lights.intensity,
                        lights.shadows, l)
      modifies this, lightCache, lights
      ensures lightCache.Valid() && lights.Valid() && lights.live == old(lights.live)
      ensures lights.resolution == old(lights.resolution)
      ensures roomEnableSqr == old(roomEnableSqr) && roomDisableSqr == old(roomDisableSqr)
      ensures shadowDistanceSets == old(shadowDistanceSets)
      ensures enabledRooms == Enabled(registry.rooms[..next], states[..next])
      ensures forall l :: 0 <= l < |lights.live| ==>
                OriginalsKept(m0, h0, i0, s0, lightCache.originalIntensities, lightCache.hadShadows,
                              lights.intensity, lights.shadows, lights.live, l)
      ensures forall l :: 0 <= l < |lights.live| ==>
                CachedIn(registry.rooms, next, lights.live, lightCache.originalIntensities, lightCache.hadShadows, l)
      ensures forall l :: 0 <= l < |lights.live| ==>
                Passed(registry.rooms, states, next, icfg, pow, dist, m0, i0, s0, lights.live, lights.intensity,
                       lights.shadows, l)
    {
      var room := registry.rooms[k];
      ghost var mc, hc := lightCache.originalIntensities, lightCache.hadShadows;
      ghost var ic, sc := lights.intensity, lights.shadows;
      EnabledStep(registry.rooms, states, k);
      if room.renderState == On {
        enabledRooms := enabledRooms + [room];
        LightIntensityUtils.Apply(room, dist, lightCache, icfg, pow, lights);
        forall l | 0 <= l < |lights.live|
          ensures OriginalsKept(m0, h0, i0, s0, lightCache.originalIntensities, lightCache.hadShadows,
                                lights.intensity, lights.shadows, lights.live, l)
          ensures CachedIn(registry.rooms, next, lights.live, lightCache.originalIntensities, lightCache.hadShadows, l)
          ensures Passed(registry.rooms, states, next, icfg, pow, dist, m0, i0, s0, lights.live, lights.intensity,
                         lights.shadows, l)
        {
          var inner := Max(0.0, icfg.maxIntensityDistance);
          AppliedKeeps(room.lights, lights.live, dist, mc, hc, ic, sc, lights.intensity, lights.shadows, inner,
                       Max(inner, icfg.disableDistance), Max(1.0, icfg.innerFalloffPower), pow, l);
          KeptTransitive(m0, h0, i0, s0, mc, hc, ic, sc, lightCache.originalIntensities, lightCache.hadShadows,
                         lights.intensity, lights.shadows, lights.live, l);
          CachedStep(registry.rooms, k, lights.live, mc, hc, ic, ShadowFlags(sc), l);
          PassedOn(registry.rooms, states, k, icfg, pow, dist, m0, h0, i0, s0, lights.live, mc, hc, ic, sc,
                   lights.intensity, lights.shadows, l);
        }
      } else {
        LightIntensityUtils.ZeroAll(room, lightCache, lights);
        forall l | 0 <= l < |lights.live|
          ensures OriginalsKept(m0, h0, i0, s0, lightCache.originalIntensities, lightCache.hadShadows,
                                lights.intensity, lights.shadows, lights.live, l)
          ensures CachedIn(registry.rooms, next, lights.live, lightCache.originalIntensities, lightCache.hadShadows, l)
          ensures Passed(registry.rooms, states, next, icfg, pow, dist, m0, i0, s0, lights.live, lights.intensity,
                         lights.shadows, l)
        {
          ZeroedKeeps(room.lights, lights.live, mc, hc, ic, sc, lights.intensity, lights.shadows, l);
          KeptTransitive(m0, h0, i0, s0, mc, hc, ic, sc, lightCache.originalIntensities, lightCache.hadShadows,
                         lights.intensity, lights.shadows, lights.live, l);
          CachedStep(registry.rooms, k, lights.live, mc, hc, ic, ShadowFlags(sc), l);
          PassedOff(registry.rooms, states, k, icfg, pow, dist, m0, i0, s0, lights.live, ic, sc, lights.intensity,
                    lights.shadows, l);
        }
      }
    }

    /**
     * One check of `Tick` on `room`: a room without renderers is marked Off; out of the vertical band it is
     * switched off if it was On; otherwise the hysteresis decides, switching off through the cache; a room that
     * ends Off this way has its lights zeroed. The renderers are switched exactly when the state changes.
     */
    method CheckRoom(room: RoomRendererRecord, user: Vec3, rt: RendererTable, lights: LightTable)
      requires lightCache.Valid() && rt.Valid() && lights.Valid()
      modifies room, rt, lights, lightCache
      ensures lightCache.Valid() && rt.Valid() && lights.Valid()
      ensures rt.live == old(rt.live) && rt.bounds == old(rt.bounds) && rt.layerMask == old(rt.layerMask)
      ensures lights.live == old(lights.live) && lights.resolution == old(lights.resolution)
      ensures room.center == old(room.center)
      ensures room.renderState == Ticked(old(room.renderState), |room.renderers| > 0, room.center, ProbeAt(user))
      ensures old(room.renderState) == Off && room.renderState == On ==>
                forall r :: 0 <= r < |rt.live| ==> RendererSet(room.renderers, rt.live, old(rt.enabled), rt.enabled, true, r)
      ensures old(room.renderState) == On && room.renderState == Off ==>
                forall r :: 0 <= r < |rt.live| ==> RendererSet(room.renderers, rt.live, old(rt.enabled), rt.enabled, false, r)
      ensures room.renderState == old(room.renderState) ==> rt.enabled == old(rt.enabled)
      ensures ZeroesLights(old(room.renderState), |room.renderers| > 0, room.center, ProbeAt(user)) ==>
                lightCache.originalIntensities ==
                  CachedAll(old(lightCache.originalIntensities), room.lights, lights.live, old(lights.intensity)) &&
                lightCache.hadShadows ==
                  CachedAll(old(lightCache.hadShadows), room.lights, lights.live, ShadowFlags(old(lights.shadows))) &&
                forall l :: 0 <= l < |lights.live| ==>
                  LightZeroed(room.lights, lights.live, old(lights.intensity), old(lights.shadows), lights.intensity,
                              lights.shadows, l)
      ensures !ZeroesLights(old(room.renderState), |room.renderers| > 0, room.center, ProbeAt(user)) ==>
                lights.intensity == old(lights.intensity) && lights.shadows == old(lights.shadows) &&
                lightCache.originalIntensities == old(lightCache.originalIntensities) &&
                lightCache.hadShadows == old(lightCache.hadShadows)
    {
      if |room.renderers| == 0 {
        room.renderState := Off;
        return;
      }
      var c := room.center;
      if config.verticalTolerance > 0.0 && Abs(c.y - user.y) > config.verticalTolerance {
        if room.renderState == On {
          SetEnabled(room, false, None, rt, lights);
        }
        return;
      }
      var d2 := SqrMagnitude(Sub(c, user));
      if room.renderState == Off {
        if d2 <= roomEnableSqr {
          SetEnabled(room, true, None, rt, lights);
        }
      } else if d2 >= roomDisableSqr {
        SetEnabled(room, false, Some(lightCache), rt, lights);
      }
      if room.renderState == Off {
        ghost var m1, h1 := lightCache.originalIntensities, lightCache.hadShadows;
        ghost var i1, s1 := lights.intensity, lights.shadows;
        ZeroAll(room, lightCache, lights);
        if old(room.renderState) == On {
          CachedAllTwice(old(lightCache.originalIntensities), room.lights, lights.live, old(lights.intensity), i1);
          CachedAllTwice(old(lightCache.hadShadows), room.lights, lights.live, ShadowFlags(old(lights.shadows)),
                         ShadowFlags(s1));
          forall l | 0 <= l < |lights.live|
            ensures LightZeroed(room.lights, lights.live, old(lights.intensity), old(lights.shadows), lights.intensity,
                                lights.shadows, l)
          {
            assert LightZeroed(room.lights, lights.live, old(lights.intensity), old(lights.shadows), i1, s1, l);
            assert LightZeroed(room.lights, lights.live, i1, s1, lights.intensity, lights.shadows, l);
          }
        }
      }
    }

    /**
     * Room `r`, at position `j`, keeps its centre in `centers0` and holds its state in `target` if it was
     * visited in `seen`, its state in `states0` otherwise.
     */
    ghost predicate RoomChecked(r: RoomRendererRecord, j: int, seen: seq<int>, target: seq<RenderState>,
                                states0: seq<RenderState>, centers0: seq<Vec3>)
      reads r
    {
      0 <= j < |target| && j < |states0| && j < |centers0| && r.center == centers0[j] &&
      r.renderState == if j in seen then target[j] else states0[j]
    }

    /**
     * The loop of `Tick` after `n` of its `count` checks, from the stepper at `head0`: the stepper is about to
     * hand out the rest of the visits `v` and will end where `count` calls from `head0` end; the rooms visited
     * so far hold their state in `target` and the others their state in `states0`; only lights of rooms that
     * end Off changed since `(m0, h0, i0, s0)`; the renderers have flipped for the visited rooms whose state changed.
     */
    ghost predicate TickLoop(n: int, count: int, head0: int, rt: RendererTable, lights: LightTable, v: seq<int>,
                             target: seq<RenderState>, states0: seq<RenderState>, centers0: seq<Vec3>,
                             m0: map<int, real>, h0: map<int, bool>, i0: seq<real>, s0: seq<Shadows>, e0: seq<bool>)
      reads this, registry, registry.rooms, stepper, lightCache, rt, lights
    {
      var rooms := registry.rooms;
      lightCache.Valid() && rt.Valid() && lights.Valid() && stepper.Valid() &&
      0 <= n <= count <= |rooms| && |v| == count && |target| == |rooms| && |states0| == |rooms| &&
      |centers0| == |rooms| && |i0| == |lights.live| && |s0| == |lights.live| && |e0| == |rt.live| &&
      v[n..] == Visits(stepper.head, |rooms|, count - n) &&
      HeadAfter(stepper.head, |rooms|, count - n) == HeadAfter(head0, |rooms|, count) &&
      (forall j {:trigger RoomChecked(rooms[j], j, v[..n], target, states0, centers0)} :: 0 <= j < |rooms| ==>
         RoomChecked(rooms[j], j, v[..n], target, states0, centers0)) &&
      (forall l :: 0 <= l < |lights.live| ==>
         TouchedOnlyOff(rooms, target, |rooms|, lights.live, m0, h0, i0, s0, lightCache.originalIntensities,
                        lightCache.hadShadows, lights.intensity, lights.shadows, l)) &&
      (forall r :: 0 <= r < |rt.live| ==> Flipped(rooms, states0, target, v[..n], rt.live, e0, rt.enabled, r))
    }

    /**
     * One pass of the loop of `Tick`: the stepper hands out the next index, which is the next one of the
     * visits `v`, and that room is checked, reaching its state in `target`.
     */
    method TickStep(n: int, next: int, count: int, user: Vec3, rt: RendererTable, lights: LightTable,
                    ghost head0: int, ghost v: seq<int>, ghost target: seq<RenderState>, ghost states0: seq<RenderState>,
                    ghost centers0: seq<Vec3>, ghost m0: map<int, real>, ghost h0: map<int, bool>,
                    ghost i0: seq<real>, ghost s0: seq<Shadows>, ghost e0: seq<bool>)
      requires ListsDisjoint(registry.rooms) && registry.Valid()
      requires TickLoop(n, count, head0, rt, lights, v, target, states0, centers0, m0, h0, i0, s0, e0)
      requires n < count && next == n + 1
      requires forall a :: 0 <= a < count ==> 0 <= v[a] < |registry.rooms|
      requires forall a, b :: 0 <= a < b < count ==> v[a] != v[b]
      requires target == TickTargets(registry.rooms, states0, centers0, v, ProbeAt(user))
      modifies registry.rooms, stepper, rt, lights, lightCache
      ensures TickLoop(next, count, head0, rt, lights, v, target, states0, centers0, m0, h0, i0, s0, e0)
      ensures stepper.fullSweep == old(stepper.fullSweep)
      ensures roomEnableSqr == old(roomEnableSqr) && roomDisableSqr == old(roomDisableSqr)
      ensures shadowDistanceSets == old(shadowDistanceSets) && enabledRooms == old(enabledRooms)
      ensures shadowSelection.candidates == old(shadowSelection.candidates)
      ensures rt.live == old(rt.live) && rt.bounds == old(rt.bounds) && rt.layerMask == old(rt.layerMask)
      ensures lights.live == old(lights.live) && lights.resolution == old(lights.resolution)
    {
      ghost var rooms := registry.rooms;
      var total := |registry.rooms|;
      VisitsAdvance(v, n, stepper.head, total);
      var idx := stepper.Next(total);
      var room := registry.rooms[idx];
      forall j | 0 <= j < total && j != idx
        ensures rooms[j] != room
      {
        RecordsDiffer(rooms, j, idx);
      }
      ghost var mc, hc := lightCache.originalIntensities, lightCache.hadShadows;
      ghost var ic, sc := lights.intensity, lights.shadows;
      ghost var ec := rt.enabled;
      ghost var probe := ProbeAt(user);
      assert RoomChecked(room, idx, v[..n], target, states0, centers0);
      TickTargetsAt(rooms, states0, centers0, v, probe);
      CheckRoom(room, user, rt, lights);
      forall j | 0 <= j < total
        ensures RoomChecked(rooms[j], j, v[..next], target, states0, centers0)
      {
        assert old(RoomChecked(rooms[j], j, v[..n], target, states0, centers0));
      }
      forall l | 0 <= l < |lights.live|
        ensures TouchedOnlyOff(rooms, target, total, lights.live, m0, h0, i0, s0, lightCache.originalIntensities,
                               lightCache.hadShadows, lights.intensity, lights.shadows, l)
      {
        if ZeroesLights(states0[idx], |room.renderers| > 0, centers0[idx], probe) {
          ZeroedKeeps(room.lights, lights.live, mc, hc, ic, sc, lights.intensity, lights.shadows, l);
          TouchedZeroed(rooms, target, total, idx, lights.live, m0, h0, i0, s0, mc, hc, ic, sc,
                        lightCache.originalIntensities, lightCache.hadShadows, lights.intensity, lights.shadows, l);
        }
      }
      forall r | 0 <= r < |rt.live|
        ensures Flipped(rooms, states0, target, v[..next], rt.live, e0, rt.enabled, r)
      {
        FlippedStep(rooms, states0, target, v[..n], idx, v[..next], rt.live, e0, ec, rt.enabled, r);
      }
    }

    /**
     * The loop of `Tick`: `count` rooms, the visits `v` of the stepper, are checked in turn. Each ends in its
     * state in `target`, only lights of rooms that end Off change, and the renderers of exactly the rooms whose
     * state changed follow the new state.
     */
    method TickRooms(user: Vec3, count: int, rt: RendererTable, lights: LightTable, ghost v: seq<int>,
                     ghost target: seq<RenderState>)
      requires Valid() && rt.Valid() && lights.Valid()
      requires 0 < |registry.rooms| && 0 <= count <= |registry.rooms|
      requires v == Visits(stepper.head, |registry.rooms|, count)
      requires target == TickTargets(registry.rooms, StatesOf(registry.rooms), CentersOf(registry.rooms), v, ProbeAt(user))
      modifies registry.rooms, stepper, rt, lights, lightCache
      ensures Valid() && rt.Valid() && lights.Valid()
      ensures !stepper.fullSweep && stepper.head == HeadAfter(old(stepper.head), |registry.rooms|, count)
      ensures rt.live == old(rt.live) && rt.bounds == old(rt.bounds) && rt.layerMask == old(rt.layerMask)
      ensures lights.live == old(lights.live) && lights.resolution == old(lights.resolution)
      ensures StatesOf(registry.rooms) == target && CentersOf(registry.rooms) == old(CentersOf(registry.rooms))
      ensures roomEnableSqr == old(roomEnableSqr) && roomDisableSqr == old(roomDisableSqr)
      ensures shadowDistanceSets == old(shadowDistanceSets) && enabledRooms == old(enabledRooms)
      ensures shadowSelection.candidates == old(shadowSelection.candidates)
      ensures forall l :: 0 <= l < |lights.live| ==>
                TouchedOnlyOff(registry.rooms, target, |registry.rooms|, lights.live, old(lightCache.originalIntensities),
                               old(lightCache.hadShadows), old(lights.intensity), old(lights.shadows),
                               lightCache.originalIntensities, lightCache.hadShadows, lights.intensity,
                               lights.shadows, l)
      ensures forall r :: 0 <= r < |rt.live| ==>
                Flipped(registry.rooms, old(StatesOf(registry.rooms)), target, v, rt.live, old(rt.enabled), rt.enabled, r)
    {
      ghost var rooms := registry.rooms;
      ghost var states0, centers0 := StatesOf(rooms), CentersOf(rooms);
      ghost var m0, h0 := lightCache.originalIntensities, lightCache.hadShadows;
      ghost var i0, s0 := lights.intensity, lights.shadows;
      ghost var e0 := rt.enabled;
      ghost var head0 := stepper.head;
      VisitsDistinct(stepper.head, |rooms|, count);
      TickLoopStart(user, count, rt, lights, v, target);
      var n := 0;
      while n < count
        invariant TickLoop(n, count, head0, rt, lights, v, target, states0, centers0, m0, h0, i0, s0, e0)
        invariant stepper.fullSweep == old(stepper.fullSweep)
        invariant roomEnableSqr == old(roomEnableSqr) && roomDisableSqr == old(roomDisableSqr)
        invariant shadowDistanceSets == old(shadowDistanceSets) && enabledRooms == old(enabledRooms)
        invariant shadowSelection.candidates == old(shadowSelection.candidates)
        invariant rt.live == old(rt.live) && rt.bounds == old(rt.bounds) && rt.layerMask == old(rt.layerMask)
        invariant lights.live == old(lights.live) && lights.resolution == old(lights.resolution)
      {
        var next := n + 1;
        TickStep(n, next, count, user, rt, lights, head0, v, target, states0, centers0, m0, h0, i0, s0, e0);
        n := next;
      }
      TickLoopDone(count, head0, rt, lights, v, target, states0, centers0, m0, h0, i0, s0, e0);
      stepper.EndTick();
    }

    /** Before the first check the loop holds from the current state. */
    lemma TickLoopStart(user: Vec3, count: int, rt: RendererTable, lights: LightTable, v: seq<int>,
                        target: seq<RenderState>)
      requires Valid() && rt.Valid() && lights.Valid()
      requires 0 <= count <= |registry.rooms| && v == Visits(stepper.head, |registry.rooms|, count)
      requires target == TickTargets(registry.rooms, StatesOf(registry.rooms), CentersOf(registry.rooms), v, ProbeAt(user))
      ensures forall j :: 0 <= j < |target| && j !in v ==> target[j] == StatesOf(registry.rooms)[j]
      ensures TickLoop(0, count, stepper.head, rt, lights, v, target, StatesOf(registry.rooms),
                       CentersOf(registry.rooms), lightCache.originalIntensities, lightCache.hadShadows,
                       lights.intensity, lights.shadows, rt.enabled)
    {
      StatesAt(registry.rooms);
      CentersAt(registry.rooms);
      TickTargetsAt(registry.rooms, StatesOf(registry.rooms), CentersOf(registry.rooms), v, ProbeAt(user));
      assert v[..0] == [] && v[0..] == v;
      forall j | 0 <= j < |registry.rooms|
        ensures RoomChecked(registry.rooms[j], j, v[..0], target, StatesOf(registry.rooms), CentersOf(registry.rooms))
      {
      }
    }

    /** After the last check every room holds its target state and keeps its centre, and the stepper is done. */
    lemma TickLoopDone(count: int, head0: int, rt: RendererTable, lights: LightTable, v: seq<int>,
                       target: seq<RenderState>, states0: seq<RenderState>, centers0: seq<Vec3>,
                       m0: map<int, real>, h0: map<int, bool>, i0: seq<real>, s0: seq<Shadows>, e0: seq<bool>)
      requires TickLoop(count, count, head0, rt, lights, v, target, states0, centers0, m0, h0, i0, s0, e0)
      requires forall j :: 0 <= j < |target| && j !in v ==> target[j] == states0[j]
      ensures StatesOf(registry.rooms) == target && CentersOf(registry.rooms) == centers0
      ensures stepper.head == HeadAfter(head0, |registry.rooms|, count)
      ensures forall r :: 0 <= r < |rt.live| ==> Flipped(registry.rooms, states0, target, v, rt.live, e0, rt.enabled, r)
    {
      assert v[..count] == v;
      forall j | 0 <= j < |registry.rooms|
        ensures registry.rooms[j].renderState == target[j] && registry.rooms[j].center == centers0[j]
      {
        assert RoomChecked(registry.rooms[j], j, v[..count], target, states0, centers0);
      }
      StatesAt(registry.rooms);
      CentersAt(registry.rooms);
    }

    /**
     * `Tick`: nothing without rooms. Otherwise the stepper's slice of rooms is checked (every room while a
     * full sweep is pending), the sweep request is cleared, and intensities and shadows are applied: the rooms
     * reach their `TickTargets` (each visited room the state one check gives it, every other room its state),
     * keep their centres, and the renderers of exactly the rooms whose state changed follow the new state.
     */
    method Tick(user: Vec3, dist: seq<real>, pow: (real, real) -> real, rt: RendererTable, lights: LightTable)
      returns (ghost mid: seq<Shadows>)
      requires Valid() && rt.Valid() && lights.Valid() && |dist| == |lights.live|
      modifies this, stepper, lightCache, shadowSelection, lights, rt, registry.rooms
      ensures Valid() && rt.Valid() && lights.Valid()
      ensures rt.live == old(rt.live) && rt.bounds == old(rt.bounds) && rt.layerMask == old(rt.layerMask)
      ensures lights.live == old(lights.live)
      ensures roomEnableSqr == old(roomEnableSqr) && roomDisableSqr == old(roomDisableSqr)
      ensures shadowDistanceSets == old(shadowDistanceSets)
      ensures CentersOf(registry.rooms) == old(CentersOf(registry.rooms))
      ensures |registry.rooms| == 0 ==> unchanged(this, stepper, lightCache, shadowSelection, lights, rt)
      ensures |registry.rooms| > 0 ==>
                var total := |registry.rooms|;
                var v := Visits(old(stepper.head), total, old(stepper.GetIterations(total, config.checksPerFrame)));
                !stepper.fullSweep && stepper.head == HeadAfter(old(stepper.head), total, |v|) &&
                StatesOf(registry.rooms) ==
                  TickTargets(registry.rooms, old(StatesOf(registry.rooms)), old(CentersOf(registry.rooms)), v,
                              old(ProbeAt(user))) &&
                (forall r :: 0 <= r < |rt.live| ==>
                   Flipped(registry.rooms, old(StatesOf(registry.rooms)), StatesOf(registry.rooms), v, rt.live,
                           old(rt.enabled), rt.enabled, r)) &&
                Settled(old(lightCache.originalIntensities), old(lightCache.hadShadows), old(lights.intensity),
                        old(lights.shadows), old(lights.resolution), old(shadowSelection.candidates), dist, pow,
                        lights, mid)
    {
      if |registry.rooms| == 0 {
        mid := lights.shadows;
        return;
      }
      var total := |registry.rooms|;
      var count := stepper.GetIterations(total, config.checksPerFrame);
      ghost var rooms := registry.rooms;
      ghost var v := Visits(stepper.head, total, count);
      ghost var target := TickTargets(rooms, StatesOf(rooms), CentersOf(rooms), v, ProbeAt(user));
      ghost var m0, h0 := lightCache.originalIntensities, lightCache.hadShadows;
      ghost var i0, s0 := lights.intensity, lights.shadows;
      ghost var centers0 := CentersOf(rooms);
      TickRooms(user, count, rt, lights, v, target);
      mid := ApplyAfterLoop(dist, pow, rt, lights, m0, h0, i0, s0);
    }

    /**
     * `ApplyIntensityAndShadows` after a loop that, since the light state `(m0, h0, i0, s0)`, changed only
     * lights of rooms that are now Off: every light is settled against that earlier state.
     */
    method ApplyAfterLoop(dist: seq<real>, pow: (real, real) -> real, rt: RendererTable, lights: LightTable,
                          ghost m0: map<int, real>, ghost h0: map<int, bool>, ghost i0: seq<real>, ghost s0: seq<Shadows>)
      returns (ghost mid: seq<Shadows>)
      requires Valid() && lights.Valid() && |dist| == |lights.live| && |i0| == |lights.live| && |s0| == |lights.live|
      requires forall l :: 0 <= l < |lights.live| ==>
                 TouchedOnlyOff(registry.rooms, StatesOf(registry.rooms), |registry.rooms|, lights.live, m0, h0, i0, s0,
                                lightCache.originalIntensities, lightCache.hadShadows, lights.intensity, lights.shadows, l)
      modifies this, lightCache, shadowSelection, lights
      ensures Valid() && lights.Valid() && lights.live == old(lights.live)
      ensures roomEnableSqr == old(roomEnableSqr) && roomDisableSqr == old(roomDisableSqr)
      ensures shadowDistanceSets == old(shadowDistanceSets)
      ensures unchanged(rt) && unchanged(stepper)
      ensures StatesOf(registry.rooms) == old(StatesOf(registry.rooms))
      ensures CentersOf(registry.rooms) == old(CentersOf(registry.rooms))
      ensures Settled(m0, h0, i0, s0, old(lights.resolution), old(shadowSelection.candidates), dist, pow, lights, mid)
    {
      ghost var rooms := registry.rooms;
      ghost var states := StatesOf(rooms);
      ghost var m1, h1 := lightCache.originalIntensities, lightCache.hadShadows;
      ghost var i1, s1 := lights.intensity, lights.shadows;
      mid := ApplyIntensityAndShadows(dist, pow, lights);
      assert StatesOf(rooms) == states;
      ghost var icfg := IntensityConfigFor(config.Values());
      forall l | 0 <= l < |lights.live|
        ensures LightSettled(rooms, states, icfg, pow, dist, lights.live, m0, h0, i0, s0, lightCache.originalIntensities,
                             lightCache.hadShadows, lights.intensity, mid, lights.shadows, l)
      {
        SettleAfterLoop(rooms, states, icfg, pow, dist, lights.live, m0, h0, i0, s0, m1, h1, i1, s1,
                        lightCache.originalIntensities, lightCache.hadShadows, lights.intensity, mid, lights.shadows, l);
      }
    }

    /**
     * Room `r`, at position `j`, keeps its centre in `centers0` and is in its state in `target` if it is one
     * of the first `k` rooms, in its state in `states0` otherwise.
     */
    ghost predicate RoomSet(r: RoomRendererRecord, j: int, k: int, target: seq<RenderState>, states0: seq<RenderState>,
                            centers0: seq<Vec3>)
      reads r
    {
      0 <= j < |target| && j < |states0| && j < |centers0| && r.center == centers0[j] &&
      r.renderState == if j < k then target[j] else states0[j]
    }

    /**
     * A loop that switches each room in turn to its state in `target`, after its first `k` rooms: those rooms
     * hold their target state, the others their state in `states0`, every room keeps its centre, and the
     * renderers of the first `k` rooms follow the target states while every other renderer keeps its flag in `e0`.
     */
    ghost predicate SwitchLoop(k: int, target: seq<RenderState>, rt: RendererTable, states0: seq<RenderState>,
                               centers0: seq<Vec3>, e0: seq<bool>)
      reads this, registry, registry.rooms, rt
    {
      var rooms := registry.rooms;
      rt.Valid() && 0 <= k <= |rooms| && |target| == |rooms| && |states0| == |rooms| && |centers0| == |rooms| &&
      |e0| == |rt.live| &&
      (forall j {:trigger RoomSet(rooms[j], j, k, target, states0, centers0)} :: 0 <= j < |rooms| ==>
         RoomSet(rooms[j], j, k, target, states0, centers0)) &&
      (forall r :: 0 <= r < |rt.live| ==> Switched(rooms, target, k, rt.live, e0, rt.enabled, r))
    }

    /** Before the first room the switching loop holds from the current state. */
    lemma SwitchLoopStart(target: seq<RenderState>, rt: RendererTable)
      requires rt.Valid() && |target| == |registry.rooms|
      ensures SwitchLoop(0, target, rt, StatesOf(registry.rooms), CentersOf(registry.rooms), rt.enabled)
    {
      StatesAt(registry.rooms);
      CentersAt(registry.rooms);
      forall j | 0 <= j < |registry.rooms|
        ensures RoomSet(registry.rooms[j], j, 0, target, StatesOf(registry.rooms), CentersOf(registry.rooms))
      {
      }
    }

    /** After the last room every room holds its target state and keeps its centre. */
    lemma SwitchLoopDone(target: seq<RenderState>, rt: RendererTable, states0: seq<RenderState>, centers0: seq<Vec3>,
                         e0: seq<bool>)
      requires SwitchLoop(|registry.rooms|, target, rt, states0, centers0, e0)
      ensures StatesOf(registry.rooms) == target && CentersOf(registry.rooms) == centers0
    {
      forall j | 0 <= j < |registry.rooms|
        ensures registry.rooms[j].renderState == target[j] && registry.rooms[j].center == centers0[j]
      {
        assert RoomSet(registry.rooms[j], j, |registry.rooms|, target, states0, centers0);
      }
      StatesAt(registry.rooms);
      CentersAt(registry.rooms);
    }

    /** One room of `ForceAllOff`: its lights are zeroed through the cache, then it is switched off. */
    method ForceOffStep(k: int, next: int, rt: RendererTable, lights: LightTable, ghost states0: seq<RenderState>,
                        ghost centers0: seq<Vec3>, ghost m0: map<int, real>, ghost h0: map<int, bool>,
                        ghost i0: seq<real>, ghost s0: seq<Shadows>, ghost e0: seq<bool>)
      requires registry.Valid() && ListsDisjoint(registry.rooms) && lightCache.Valid() && lights.Valid()
      requires SwitchLoop(k, Uniform(|registry.rooms|, Off), rt, states0, centers0, e0)
      requires k < |registry.rooms| && next == k + 1 && |i0| == |s0| == |lights.live|
      requires forall l :: 0 <= l < |lights.live| ==>
                 OriginalsKept(m0, h0, i0, s0, lightCache.originalIntensities, lightCache.hadShadows,
                               lights.intensity, lights.shadows, lights.live, l) &&
                 Darkened(registry.rooms, k, lights.live, i0, s0, lights.intensity, lights.shadows, l)
      modifies registry.rooms, rt, lights, lightCache
      ensures SwitchLoop(next, Uniform(|registry.rooms|, Off), rt, states0, centers0, e0)
      ensures lightCache.Valid() && lights.Valid()
      ensures rt.live == old(rt.live) && rt.bounds == old(rt.bounds) && rt.layerMask == old(rt.layerMask)
      ensures lights.live == old(lights.live) && lights.resolution == old(lights.resolution)
      ensures forall l :: 0 <= l < |lights.live| ==>
                OriginalsKept(m0, h0, i0, s0, lightCache.originalIntensities, lightCache.hadShadows,
                              lights.intensity, lights.shadows, lights.live, l) &&
                Darkened(registry.rooms, next, lights.live, i0, s0, lights.intensity, lights.shadows, l)
    {
      ghost var rooms := registry.rooms;
      ghost var target := Uniform(|rooms|, Off);
      var room := registry.rooms[k];
      forall j | 0 <= j < |rooms| && j != k
        ensures rooms[j] != room
      {
        RecordsDiffer(rooms, j, k);
      }
      ghost var mc, hc := lightCache.originalIntensities, lightCache.hadShadows;
      ghost var ic, sc := lights.intensity, lights.shadows;
      ghost var ec := rt.enabled;
      assert RoomSet(room, k, k, target, states0, centers0);
      ZeroAll(room, lightCache, lights);
      SetEnabled(room, false, None, rt, lights);
      forall j | 0 <= j < |rooms|
        ensures RoomSet(rooms[j], j, next, target, states0, centers0)
      {
        assert old(RoomSet(rooms[j], j, k, target, states0, centers0));
      }
      forall l | 0 <= l < |lights.live|
        ensures OriginalsKept(m0, h0, i0, s0, lightCache.originalIntensities, lightCache.hadShadows,
                              lights.intensity, lights.shadows, lights.live, l)
        ensures Darkened(rooms, next, lights.live, i0, s0, lights.intensity, lights.shadows, l)
      {
        ZeroedKeeps(room.lights, lights.live, mc, hc, ic, sc, lights.intensity, lights.shadows, l);
        KeptTransitive(m0, h0, i0, s0, mc, hc, ic, sc, lightCache.originalIntensities, lightCache.hadShadows,
                       lights.intensity, lights.shadows, lights.live, l);
        DarkenedStep(rooms, k, lights.live, i0, s0, ic, sc, lights.intensity, lights.shadows, l);
      }
      forall r | 0 <= r < |rt.live|
        ensures Switched(rooms, target, next, rt.live, e0, rt.enabled, r)
      {
        SwitchedStep(rooms, target, k, rt.live, e0, ec, rt.enabled, r);
      }
    }

    /**
     * `ForceAllOff`: every room has its lights zeroed through the cache and is switched off. Afterwards every
     * room is Off and keeps its centre, the live lights of the rooms are dark while the cache's getters still
     * report their originals, every other light is untouched, and the renderers of the rooms are disabled.
     */
    method ForceAllOff(rt: RendererTable, lights: LightTable)
      requires Valid() && rt.Valid() && lights.Valid()
      modifies registry.rooms, rt, lights, lightCache
      ensures Valid() && rt.Valid() && lights.Valid()
      ensures rt.live == old(rt.live) && rt.bounds == old(rt.bounds) && rt.layerMask == old(rt.layerMask)
      ensures lights.live == old(lights.live) && lights.resolution == old(lights.resolution)
      ensures StatesOf(registry.rooms) == Uniform(|registry.rooms|, Off)
      ensures CentersOf(registry.rooms) == old(CentersOf(registry.rooms))
      ensures forall i :: 0 <= i < |registry.rooms| ==> registry.rooms[i].center == old(registry.rooms[i].center)
      ensures forall l :: 0 <= l < |lights.live| ==>
                OriginalsKept(old(lightCache.originalIntensities), old(lightCache.hadShadows), old(lights.intensity),
                              old(lights.shadows), lightCache.originalIntensities, lightCache.hadShadows,
                              lights.intensity, lights.shadows, lights.live, l) &&
                Darkened(registry.rooms, |registry.rooms|, lights.live, old(lights.intensity), old(lights.shadows),
                         lights.intensity, lights.shadows, l)
      ensures forall r :: 0 <= r < |rt.live| ==>
                Switched(registry.rooms, Uniform(|registry.rooms|, Off), |registry.rooms|, rt.live, old(rt.enabled),
                         rt.enabled, r)
    {
      ghost var rooms := registry.rooms;
      ghost var target := Uniform(|rooms|, Off);
      ghost var states0, centers0 := StatesOf(rooms), CentersOf(rooms);
      CentersAt(rooms);
      ghost var m0, h0 := lightCache.originalIntensities, lightCache.hadShadows;
      ghost var i0, s0 := lights.intensity, lights.shadows;
      ghost var e0 := rt.enabled;
      SwitchLoopStart(target, rt);
      var k := 0;
      while k < |registry.rooms|
        invariant SwitchLoop(k, target, rt, states0, centers0, e0)
        invariant lightCache.Valid() && lights.Valid()
        invariant rt.live == old(rt.live) && rt.bounds == old(rt.bounds) && rt.layerMask == old(rt.layerMask)
        invariant lights.live == old(lights.live) && lights.resolution == old(lights.resolution)
        invariant forall l :: 0 <= l < |lights.live| ==>
                    OriginalsKept(m0, h0, i0, s0, lightCache.originalIntensities, lightCache.hadShadows,
                                  lights.intensity, lights.shadows, lights.live, l) &&
                    Darkened(rooms, k, lights.live, i0, s0, lights.intensity, lights.shadows, l)
      {
        var next := k + 1;
        ForceOffStep(k, next, rt, lights, states0, centers0, m0, h0, i0, s0, e0);
        k := next;
      }
      SwitchLoopDone(target, rt, states0, centers0, e0);
      CentersAt(rooms);
      assert forall i :: 0 <= i < |rooms| ==> rooms[i].center == centers0[i];
    }

    /** One room of `ForceAllOn`: it is switched on; the lights are left alone. */
    method ForceOnStep(k: int, next: int, rt: RendererTable, lights: LightTable, ghost states0: seq<RenderState>,
                       ghost centers0: seq<Vec3>, ghost e0: seq<bool>)
      requires registry.Valid() && ListsDisjoint(registry.rooms) && lights.Valid()
      requires SwitchLoop(k, Uniform(|registry.rooms|, On), rt, states0, centers0, e0)
      requires k < |registry.rooms| && next == k + 1
      modifies registry.rooms, rt, lights
      ensures SwitchLoop(next, Uniform(|registry.rooms|, On), rt, states0, centers0, e0)
      ensures rt.live == old(rt.live) && rt.bounds == old(rt.bounds) && rt.layerMask == old(rt.layerMask)
      ensures unchanged(lights)
    {
      ghost var rooms := registry.rooms;
      ghost var target := Uniform(|rooms|, On);
      var room := registry.rooms[k];
      forall j | 0 <= j < |rooms| && j != k
        ensures rooms[j] != room
      {
        RecordsDiffer(rooms, j, k);
      }
      ghost var ec := rt.enabled;
      assert RoomSet(room, k, k, target, states0, centers0);
      SetEnabled(room, true, None, rt, lights);
      forall j | 0 <= j < |rooms|
        ensures RoomSet(rooms[j], j, next, target, states0, centers0)
      {
        assert old(RoomSet(rooms[j], j, k, target, states0, centers0));
      }
      forall r | 0 <= r < |rt.live|
        ensures Switched(rooms, target, next, rt.live, e0, rt.enabled, r)
      {
        SwitchedStep(rooms, target, k, rt.live, e0, ec, rt.enabled, r);
      }
    }

    /**
     * `ForceAllOn`: every room is switched on. Afterwards every room is On and keeps its centre, the renderers
     * of the rooms are enabled, and the lights are untouched until the next tick applies intensities.
     */
    method ForceAllOn(rt: RendererTable, lights: LightTable)
      requires Valid() && rt.Valid() && lights.Valid()
      modifies registry.rooms, rt, lights
      ensures Valid() && rt.Valid()
      ensures rt.live == old(rt.live) && rt.bounds == old(rt.bounds) && rt.layerMask == old(rt.layerMask)
      ensures unchanged(lights)
      ensures StatesOf(registry.rooms) == Uniform(|registry.rooms|, On)
      ensures CentersOf(registry.rooms) == old(CentersOf(registry.rooms))
      ensures forall r :: 0 <= r < |rt.live| ==>
                Switched(registry.rooms, Uniform(|registry.rooms|, On), |registry.rooms|, rt.live, old(rt.enabled),
                         rt.enabled, r)
    {
      ghost var rooms := registry.rooms;
      ghost var target := Uniform(|rooms|, On);
      ghost var states0, centers0 := StatesOf(rooms), CentersOf(rooms);
      ghost var e0 := rt.enabled;
      SwitchLoopStart(target, rt);
      var k := 0;
      while k < |registry.rooms|
        invariant SwitchLoop(k, target, rt, states0, centers0, e0)
        invariant rt.live == old(rt.live) && rt.bounds == old(rt.bounds) && rt.layerMask == old(rt.layerMask)
        invariant unchanged(lights)
      {
        var next := k + 1;
        ForceOnStep(k, next, rt, lights, states0, centers0, e0);
        k := next;
      }
      SwitchLoopDone(target, rt, states0, centers0, e0);
    }

    /**
     * `CollectRooms`: the registry is rebuilt under `root`, every new room is forced off as `ForceAllOff`
     * does, and a full sweep is scheduled. The rooms are fresh records built from the live children of the
     * root, each Off at the centre of its renderers, with its lights dark and its renderers disabled.
     */
    method CollectRooms(root: Option<Hierarchy>, includeInactive: bool, rt: RendererTable, tt: TransformTable,
                        lights: LightTable)
      requires Valid() && rt.Valid() && tt.Valid() && lights.Valid()
      requires root.Some? ==> IsTree(root.value, includeInactive)
      modifies registry, stepper, rt, lights, lightCache
      ensures Valid() && rt.Valid() && lights.Valid()
      ensures rt.live == old(rt.live) && rt.bounds == old(rt.bounds) && rt.layerMask == old(rt.layerMask)
      ensures lights.live == old(lights.live) && lights.resolution == old(lights.resolution)
      ensures root.None? ==> registry.rooms == []
      ensures root.Some? ==>
                var kids := LiveChildren(root.value.children, tt.live);
                |registry.rooms| == |kids| &&
                forall i :: 0 <= i < |registry.rooms| ==>
                  BuiltFrom(registry.rooms[i], kids[i], includeInactive, rt.live, lights.live)
      ensures forall i :: 0 <= i < |registry.rooms| ==> fresh(registry.rooms[i])
      ensures forall i :: 0 <= i < |registry.rooms| ==>
                registry.rooms[i].center ==
                  CentreOf(registry.rooms[i].renderers, registry.rooms[i].root, rt.live, rt.bounds, tt.live, tt.position)
      ensures StatesOf(registry.rooms) == Uniform(|registry.rooms|, Off)
      ensures stepper.fullSweep && stepper.head == 0
      ensures forall l :: 0 <= l < |lights.live| ==>
                OriginalsKept(old(lightCache.originalIntensities), old(lightCache.hadShadows), old(lights.intensity),
                              old(lights.shadows), lightCache.originalIntensities, lightCache.hadShadows,
                              lights.intensity, lights.shadows, lights.live, l) &&
                Darkened(registry.rooms, |registry.rooms|, lights.live, old(lights.intensity), old(lights.shadows),
                         lights.intensity, lights.shadows, l)
      ensures forall r :: 0 <= r < |rt.live| ==>
                Switched(registry.rooms, Uniform(|registry.rooms|, Off), |registry.rooms|, rt.live, old(rt.enabled),
                         rt.enabled, r)
    {
      registry.Rebuild(root, includeInactive, rt, tt, lights);
      ForceAllOff(rt, lights);
      ghost var states := StatesOf(registry.rooms);
      stepper.StartFullSweep();
      assert StatesOf(registry.rooms) == states;
    }

    /**
     * One room of `PrimeInitial`, `useVert` telling whether the tolerance is positive: out of the band it is
     * switched off; otherwise it is switched on exactly within the enable threshold, and zeroed when it stays off.
     */
    method PrimeStep(k: int, next: int, user: Vec3, useVert: bool, rt: RendererTable, lights: LightTable,
                     ghost target: seq<RenderState>, ghost states0: seq<RenderState>, ghost centers0: seq<Vec3>,
                     ghost m0: map<int, real>, ghost h0: map<int, bool>, ghost i0: seq<real>, ghost s0: seq<Shadows>,
                     ghost e0: seq<bool>)
      requires registry.Valid() && ListsDisjoint(registry.rooms) && lightCache.Valid() && lights.Valid()
      requires useVert == (config.verticalTolerance > 0.0) && target == PrimeTargets(centers0, ProbeAt(user))
      requires SwitchLoop(k, target, rt, states0, centers0, e0)
      requires k < |registry.rooms| && next == k + 1 && |i0| == |s0| == |lights.live|
      requires forall l :: 0 <= l < |lights.live| ==>
                 TouchedOnlyOff(registry.rooms, target, |registry.rooms|, lights.live, m0, h0, i0, s0,
                                lightCache.originalIntensities, lightCache.hadShadows, lights.intensity,
                                lights.shadows, l)
      modifies registry.rooms, rt, lights, lightCache
      ensures SwitchLoop(next, target, rt, states0, centers0, e0)
      ensures lightCache.Valid() && lights.Valid()
      ensures rt.live == old(rt.live) && rt.bounds == old(rt.bounds) && rt.layerMask == old(rt.layerMask)
      ensures lights.live == old(lights.live) && lights.resolution == old(lights.resolution)
      ensures forall l :: 0 <= l < |lights.live| ==>
                TouchedOnlyOff(registry.rooms, target, |registry.rooms|, lights.live, m0, h0, i0, s0,
                               lightCache.originalIntensities, lightCache.hadShadows, lights.intensity,
                               lights.shadows, l)
    {
      ghost var rooms := registry.rooms;
      var room := registry.rooms[k];
      forall j | 0 <= j < |rooms| && j != k
        ensures rooms[j] != room
      {
        RecordsDiffer(rooms, j, k);
      }
      ghost var ec := rt.enabled;
      assert RoomSet(room, k, k, target, states0, centers0);
      var c := room.center;
      if useVert && Abs(c.y - user.y) > config.verticalTolerance {
        SetEnabled(room, false, None, rt, lights);
      } else {
        var d2 := SqrMagnitude(Sub(c, user));
        var on := d2 <= roomEnableSqr;
        SetEnabled(room, on, None, rt, lights);
        if !on {
          ghost var mc, hc := lightCache.originalIntensities, lightCache.hadShadows;
          ghost var ic, sc := lights.intensity, lights.shadows;
          ZeroAll(room, lightCache, lights);
          forall l | 0 <= l < |lights.live|
            ensures TouchedOnlyOff(rooms, target, |rooms|, lights.live, m0, h0, i0, s0, lightCache.originalIntensities,
                                   lightCache.hadShadows, lights.intensity, lights.shadows, l)
          {
            ZeroedKeeps(room.lights, lights.live, mc, hc, ic, sc, lights.intensity, lights.shadows, l);
            TouchedZeroed(rooms, target, |rooms|, k, lights.live, m0, h0, i0, s0, mc, hc, ic, sc,
                          lightCache.originalIntensities, lightCache.hadShadows, lights.intensity, lights.shadows, l);
          }
        }
      }
      forall j | 0 <= j < |rooms|
        ensures RoomSet(rooms[j], j, next, target, states0, centers0)
      {
        assert old(RoomSet(rooms[j], j, k, target, states0, centers0));
      }
      forall r | 0 <= r < |rt.live|
        ensures Switched(rooms, target, next, rt.live, e0, rt.enabled, r)
      {
        SwitchedStep(rooms, target, k, rt.live, e0, ec, rt.enabled, r);
      }
    }

    /**
     * The loop of `PrimeInitial`: every room is primed in turn and reaches its state in `target`; only lights
     * of rooms that end Off change, and the renderers of every room follow its new state.
     */
    method PrimeRooms(user: Vec3, useVert: bool, rt: RendererTable, lights: LightTable, ghost target: seq<RenderState>)
      requires Valid() && rt.Valid() && lights.Valid()
      requires useVert == (config.verticalTolerance > 0.0)
      requires target == PrimeTargets(CentersOf(registry.rooms), ProbeAt(user))
      modifies registry.rooms, rt, lights, lightCache
      ensures Valid() && rt.Valid() && lights.Valid()
      ensures rt.live == old(rt.live) && rt.bounds == old(rt.bounds) && rt.layerMask == old(rt.layerMask)
      ensures lights.live == old(lights.live) && lights.resolution == old(lights.resolution)
      ensures StatesOf(registry.rooms) == target && CentersOf(registry.rooms) == old(CentersOf(registry.rooms))
      ensures forall l :: 0 <= l < |lights.live| ==>
                TouchedOnlyOff(registry.rooms, target, |registry.rooms|, lights.live, old(lightCache.originalIntensities),
                               old(lightCache.hadShadows), old(lights.intensity), old(lights.shadows),
                               lightCache.originalIntensities, lightCache.hadShadows, lights.intensity,
                               lights.shadows, l)
      ensures forall r :: 0 <= r < |rt.live| ==>
                Switched(registry.rooms, target, |registry.rooms|, rt.live, old(rt.enabled), rt.enabled, r)
    {
      ghost var rooms := registry.rooms;
      ghost var states0, centers0 := StatesOf(rooms), CentersOf(rooms);
      ghost var m0, h0 := lightCache.originalIntensities, lightCache.hadShadows;
      ghost var i0, s0 := lights.intensity, lights.shadows;
      ghost var e0 := rt.enabled;
      SwitchLoopStart(target, rt);
      var k := 0;
      while k < |registry.rooms|
        invariant SwitchLoop(k, target, rt, states0, centers0, e0)
        invariant lightCache.Valid() && lights.Valid()
        invariant rt.live == old(rt.live) && rt.bounds == old(rt.bounds) && rt.layerMask == old(rt.layerMask)
        invariant lights.live == old(lights.live) && lights.resolution == old(lights.resolution)
        invariant forall l :: 0 <= l < |lights.live| ==>
                    TouchedOnlyOff(rooms, target, |rooms|, lights.live, m0, h0, i0, s0, lightCache.originalIntensities,
                                   lightCache.hadShadows, lights.intensity, lights.shadows, l)
      {
        var next := k + 1;
        PrimeStep(k, next, user, useVert, rt, lights, target, states0, centers0, m0, h0, i0, s0, e0);
        k := next;
      }
      SwitchLoopDone(target, rt, states0, centers0, e0);
    }

    /**
     * `PrimeInitial`: nothing without rooms. Otherwise every room is primed around the user's position (each
     * reaches its `Primed` state and keeps its centre, and its renderers follow that state), then intensities
     * and shadows are applied.
     */
    method PrimeInitial(user: Vec3, dist: seq<real>, pow: (real, real) -> real, rt: RendererTable, lights: LightTable)
      returns (ghost mid: seq<Shadows>)
      requires Valid() && rt.Valid() && lights.Valid() && |dist| == |lights.live|
      modifies this, lightCache, shadowSelection, lights, rt, registry.rooms
      ensures Valid() && rt.Valid() && lights.Valid()
      ensures rt.live == old(rt.live) && rt.bounds == old(rt.bounds) && rt.layerMask == old(rt.layerMask)
      ensures lights.live == old(lights.live)
      ensures roomEnableSqr == old(roomEnableSqr) && roomDisableSqr == old(roomDisableSqr)
      ensures shadowDistanceSets == old(shadowDistanceSets)
      ensures CentersOf(registry.rooms) == old(CentersOf(registry.rooms))
      ensures StatesOf(registry.rooms) == PrimeTargets(old(CentersOf(registry.rooms)), old(ProbeAt(user)))
      ensures |registry.rooms| == 0 ==> unchanged(this, lightCache, shadowSelection, lights, rt)
      ensures |registry.rooms| > 0 ==>
                (forall r :: 0 <= r < |rt.live| ==>
                   Switched(registry.rooms, StatesOf(registry.rooms), |registry.rooms|, rt.live, old(rt.enabled),
                            rt.enabled, r)) &&
                Settled(old(lightCache.originalIntensities), old(lightCache.hadShadows), old(lights.intensity),
                        old(lights.shadows), old(lights.resolution), old(shadowSelection.candidates), dist, pow,
                        lights, mid)
    {
      if |registry.rooms| == 0 {
        mid := lights.shadows;
        assert StatesOf(registry.rooms) == [];
        return;
      }
      var useVert := config.verticalTolerance > 0.0;
      ghost var rooms := registry.rooms;
      ghost var target := PrimeTargets(CentersOf(rooms), ProbeAt(user));
      ghost var m0, h0 := lightCache.originalIntensities, lightCache.hadShadows;
      ghost var i0, s0 := lights.intensity, lights.shadows;
      PrimeRooms(user, useVert, rt, lights, target);
      mid := ApplyAfterLoop(dist, pow, rt, lights, m0, h0, i0, s0);
    }

    /**
     * `InitiateCullingServices`: `CollectRooms`, then `PrimeInitial`. A full sweep is scheduled and every
     * rebuilt room reaches its `Primed` state around the user's position.
     */
    method InitiateCullingServices(root: Option<Hierarchy>, includeInactive: bool, user: Vec3, dist: seq<real>,
                                   pow: (real, real) -> real, rt: RendererTable, tt: TransformTable, lights: LightTable)
      requires Valid() && rt.Valid() && tt.Valid() && lights.Valid() && |dist| == |lights.live|
      requires root.Some? ==> IsTree(root.value, includeInactive)
      modifies this, registry, stepper, lightCache, shadowSelection, lights, rt
      ensures Valid()
      ensures stepper.fullSweep && stepper.head == 0
      ensures StatesOf(registry.rooms) == PrimeTargets(CentersOf(registry.rooms), ProbeAt(user))
    {
      CollectRooms(root, includeInactive, rt, tt, lights);
      ghost var mid := PrimeInitial(user, dist, pow, rt, lights);
    }
  }
}

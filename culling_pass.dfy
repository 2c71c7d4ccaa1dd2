/**
 * What the culling engine's full pass over the rooms does to the lights, light by light: a light of a room
 * that is on gets the falloff of its original intensity, a light of a room that is off goes dark, every other
 * light is untouched. The cache never forgets a light's originals, so the originals the getters report are the
 * same before and after every step.
 */
module CullingPass {
  import opened Geometry
  import opened Scene
  import opened LightCaching
  import opened RoomRecords
  import opened LightIntensityUtils
  import opened Registry
  import opened Sorting
  import opened ShadowSelection
  import opened RoomRendererUtils

  /** What the cache's getters report for light `l` is the same in the second state as in the first. */
  ghost predicate OriginalsKept(m0: map<int, real>, h0: map<int, bool>, i0: seq<real>, s0: seq<Shadows>,
                                m1: map<int, real>, h1: map<int, bool>, i1: seq<real>, s1: seq<Shadows>,
                                live: seq<bool>, l: int)
  {
    OriginalIntensity(m1, l, live, i1) == OriginalIntensity(m0, l, live, i0) &&
    OriginalShadow(h1, l, live, s1) == OriginalShadow(h0, l, live, s0)
  }

  /** Zeroing a room caches its lights first, so what the getters report is kept. */
  lemma ZeroedKeeps(ls: seq<int>, live: seq<bool>, m0: map<int, real>, h0: map<int, bool>, i0: seq<real>,
                    s0: seq<Shadows>, i1: seq<real>, s1: seq<Shadows>, l: int)
    requires |i0| == |s0| == |i1| == |s1| == |live| && 0 <= l < |live|
    requires LightZeroed(ls, live, i0, s0, i1, s1, l)
    ensures OriginalsKept(m0, h0, i0, s0, CachedAll(m0, ls, live, i0), CachedAll(h0, ls, live, ShadowFlags(s0)),
                          i1, s1, live, l)
  {
    assert l in LightIntensityUtils.LiveIn(ls, live) <==> live[l] && l in ls;
  }

  /** Applying the falloff to a room caches its lights first, so what the getters report is kept. */
  lemma AppliedKeeps(ls: seq<int>, live: seq<bool>, dist: seq<real>, m0: map<int, real>, h0: map<int, bool>,
                     i0: seq<real>, s0: seq<Shadows>, i1: seq<real>, s1: seq<Shadows>, inner: real, outer: real,
                     p: real, pow: (real, real) -> real, l: int)
    requires |i0| == |s0| == |i1| == |s1| == |dist| == |live| && 0 <= l < |live|
    requires LightApplied(ls, live, dist, m0, i0, s0, i1, s1, inner, outer, p, pow, l)
    ensures OriginalsKept(m0, h0, i0, s0, CachedAll(m0, ls, live, i0), CachedAll(h0, ls, live, ShadowFlags(s0)),
                          i1, s1, live, l)
  {
    assert l in LightIntensityUtils.LiveIn(ls, live) <==> live[l] && l in ls;
  }

  /** Keeping the originals composes. */
  lemma KeptTransitive(m0: map<int, real>, h0: map<int, bool>, i0: seq<real>, s0: seq<Shadows>,
                       m1: map<int, real>, h1: map<int, bool>, i1: seq<real>, s1: seq<Shadows>,
                       m2: map<int, real>, h2: map<int, bool>, i2: seq<real>, s2: seq<Shadows>,
                       live: seq<bool>, l: int)
    requires OriginalsKept(m0, h0, i0, s0, m1, h1, i1, s1, live, l)
    requires OriginalsKept(m1, h1, i1, s1, m2, h2, i2, s2, live, l)
    ensures OriginalsKept(m0, h0, i0, s0, m2, h2, i2, s2, live, l)
  {
  }

  /**
   * The intensity the pass gives a light at distance `d` whose original is `maxI`: the falloff between
   * `MaxIntensityDistance` and `DisableDistance`, normalised as `LightIntensityUtils.Apply` does.
   */
  function IntensityFor(cfg: IntensityConfig, d: real, maxI: real, pow: (real, real) -> real): real {
    var inner := Max(0.0, cfg.maxIntensityDistance);
    Falloff(d, inner, Max(inner, cfg.disableDistance), Max(1.0, cfg.innerFalloffPower), maxI, pow)
  }

  /** Light `l` belongs to one of the first `k` rooms whose state is `s`. */
  ghost predicate InRoomsWith(rooms: seq<RoomRendererRecord>, states: seq<RenderState>, k: int, s: RenderState, l: int)
    requires 0 <= k <= |rooms| && |states| == |rooms|
  {
    exists i :: 0 <= i < k && states[i] == s && l in rooms[i].lights
  }

  /**
   * Light `l` after the pass over the first `k` rooms, whose states are `states`: the falloff of its original
   * when its room is on, losing its shadows when that is not positive; dark when its room is off; untouched
   * when it belongs to none of them.
   */
  ghost predicate Passed(rooms: seq<RoomRendererRecord>, states: seq<RenderState>, k: int, cfg: IntensityConfig,
                         pow: (real, real) -> real, dist: seq<real>, m0: map<int, real>, i0: seq<real>,
                         s0: seq<Shadows>, live: seq<bool>, intensity: seq<real>, shadows: seq<Shadows>, l: int)
    requires 0 <= k <= |rooms| && |states| == |rooms|
    requires |i0| == |s0| == |intensity| == |shadows| == |dist| == |live| && 0 <= l < |live|
  {
    if live[l] && InRoomsWith(rooms, states, k, On, l) then
      var t := IntensityFor(cfg, dist[l], OriginalIntensity(m0, l, live, i0), pow);
      intensity[l] == t && shadows[l] == (if t <= 0.0 then NoShadows else s0[l])
    else if live[l] && InRoomsWith(rooms, states, k, Off, l) then
      intensity[l] == 0.0 && shadows[l] == NoShadows
    else
      intensity[l] == i0[l] && shadows[l] == s0[l]
  }

  /** A light of room `k` belongs to none of the rooms before it. */
  lemma NotInEarlier(rooms: seq<RoomRendererRecord>, states: seq<RenderState>, k: int, l: int)
    requires ListsDisjoint(rooms) && 0 <= k < |rooms| && |states| == |rooms| && l in rooms[k].lights
    ensures !InRoomsWith(rooms, states, k, On, l) && !InRoomsWith(rooms, states, k, Off, l)
  {
    forall i | 0 <= i < k
      ensures l !in rooms[i].lights
    {
      ListsApart(rooms, i, k);
    }
  }

  /** A light belongs to rooms of both states only if it is listed twice. */
  lemma StatesExclusive(rooms: seq<RoomRendererRecord>, states: seq<RenderState>, k: int, l: int)
    requires ListsDisjoint(rooms) && 0 <= k <= |rooms| && |states| == |rooms|
    ensures !(InRoomsWith(rooms, states, k, On, l) && InRoomsWith(rooms, states, k, Off, l))
  {
    if InRoomsWith(rooms, states, k, On, l) && InRoomsWith(rooms, states, k, Off, l) {
      var i :| 0 <= i < k && states[i] == On && l in rooms[i].lights;
      var j :| 0 <= j < k && states[j] == Off && l in rooms[j].lights;
      ListsApart(rooms, i, j);
    }
  }

  /** Room `k`, on, has its lights set to the falloff: the pass over `k` rooms extends to `k + 1`. */
  lemma PassedOn(rooms: seq<RoomRendererRecord>, states: seq<RenderState>, k: int, cfg: IntensityConfig,
                 pow: (real, real) -> real, dist: seq<real>, m0: map<int, real>, h0: map<int, bool>, i0: seq<real>,
                 s0: seq<Shadows>, live: seq<bool>, m: map<int, real>, h: map<int, bool>, before: seq<real>,
                 beforeShadows: seq<Shadows>, after: seq<real>, afterShadows: seq<Shadows>, l: int)
    requires ListsDisjoint(rooms) && 0 <= k < |rooms| && |states| == |rooms| && states[k] == On
    requires |i0| == |s0| == |before| == |beforeShadows| == |after| == |afterShadows| == |dist| == |live|
    requires 0 <= l < |live|
    requires Passed(rooms, states, k, cfg, pow, dist, m0, i0, s0, live, before, beforeShadows, l)
    requires OriginalsKept(m0, h0, i0, s0, m, h, before, beforeShadows, live, l)
    requires var inner := Max(0.0, cfg.maxIntensityDistance);
             LightApplied(rooms[k].lights, live, dist, m, before, beforeShadows, after, afterShadows, inner,
                          Max(inner, cfg.disableDistance), Max(1.0, cfg.innerFalloffPower), pow, l)
    ensures Passed(rooms, states, k + 1, cfg, pow, dist, m0, i0, s0, live, after, afterShadows, l)
  {
    if live[l] && l in rooms[k].lights {
      NotInEarlier(rooms, states, k, l);
      assert InRoomsWith(rooms, states, k + 1, On, l);
    } else if l !in rooms[k].lights {
      SameRooms(rooms, states, k, l);
    }
  }

  /** Room `k`, off, has its lights darkened: the pass over `k` rooms extends to `k + 1`. */
  lemma PassedOff(rooms: seq<RoomRendererRecord>, states: seq<RenderState>, k: int, cfg: IntensityConfig,
                  pow: (real, real) -> real, dist: seq<real>, m0: map<int, real>, i0: seq<real>, s0: seq<Shadows>,
                  live: seq<bool>, before: seq<real>, beforeShadows: seq<Shadows>, after: seq<real>,
                  afterShadows: seq<Shadows>, l: int)
    requires ListsDisjoint(rooms) && 0 <= k < |rooms| && |states| == |rooms| && states[k] == Off
    requires |i0| == |s0| == |before| == |beforeShadows| == |after| == |afterShadows| == |dist| == |live|
    requires 0 <= l < |live|
    requires Passed(rooms, states, k, cfg, pow, dist, m0, i0, s0, live, before, beforeShadows, l)
    requires LightZeroed(rooms[k].lights, live, before, beforeShadows, after, afterShadows, l)
    ensures Passed(rooms, states, k + 1, cfg, pow, dist, m0, i0, s0, live, after, afterShadows, l)
  {
    if live[l] && l in rooms[k].lights {
      NotInEarlier(rooms, states, k, l);
      assert InRoomsWith(rooms, states, k + 1, Off, l);
      StatesExclusive(rooms, states, k + 1, l);
    } else if l !in rooms[k].lights {
      SameRooms(rooms, states, k, l);
    }
  }

  /** A light outside room `k` is in the first `k + 1` rooms of a state exactly when it is in the first `k`. */
  lemma SameRooms(rooms: seq<RoomRendererRecord>, states: seq<RenderState>, k: int, l: int)
    requires 0 <= k < |rooms| && |states| == |rooms|
    requires l !in rooms[k].lights
    ensures InRoomsWith(rooms, states, k + 1, On, l) == InRoomsWith(rooms, states, k, On, l)
    ensures InRoomsWith(rooms, states, k + 1, Off, l) == InRoomsWith(rooms, states, k, Off, l)
  {
    if InRoomsWith(rooms, states, k + 1, On, l) {
      var i :| 0 <= i < k + 1 && states[i] == On && l in rooms[i].lights;
      assert i < k;
    }
    if InRoomsWith(rooms, states, k + 1, Off, l) {
      var i :| 0 <= i < k + 1 && states[i] == Off && l in rooms[i].lights;
      assert i < k;
    }
  }

  /** A light step of case analysis: the first `k + 1` rooms of state `s` hold `l` when the first `k` do or room `k` does. */
  lemma InRoomsWithStep(rooms: seq<RoomRendererRecord>, states: seq<RenderState>, k: int, s: RenderState, l: int)
    requires 0 <= k < |rooms| && |states| == |rooms|
    ensures InRoomsWith(rooms, states, k + 1, s, l) <==>
            InRoomsWith(rooms, states, k, s, l) || (states[k] == s && l in rooms[k].lights)
  {
    if InRoomsWith(rooms, states, k + 1, s, l) && !(states[k] == s && l in rooms[k].lights) {
      var i :| 0 <= i < k + 1 && states[i] == s && l in rooms[i].lights;
      assert i < k;
    }
    if states[k] == s && l in rooms[k].lights {
      assert InRoomsWith(rooms, states, k + 1, s, l);
    }
  }

  /**
   * The render states of the rooms, in order (a snapshot of every `RenderState`); `StatesAt` gives its
   * elements.
   */
  ghost function StatesOf(rooms: seq<RoomRendererRecord>): (r: seq<RenderState>)
    reads rooms
    ensures |r| == |rooms|
  {
    if |rooms| == 0 then [] else StatesOf(rooms[..|rooms| - 1]) + [rooms[|rooms| - 1].renderState]
  }

  /** Element `i` of the snapshot is the state of room `i`. */
  lemma {:induction false} StatesAt(rooms: seq<RoomRendererRecord>)
    ensures forall i :: 0 <= i < |rooms| ==> StatesOf(rooms)[i] == rooms[i].renderState
  {
    if |rooms| > 0 {
      var n := |rooms| - 1;
      StatesAt(rooms[..n]);
      assert forall i :: 0 <= i < n ==> rooms[..n][i] == rooms[i];
    }
  }

  /** The centres of the rooms, in order; `CentersAt` gives its elements. */
  ghost function CentersOf(rooms: seq<RoomRendererRecord>): (r: seq<Vec3>)
    reads rooms
    ensures |r| == |rooms|
  {
    if |rooms| == 0 then [] else CentersOf(rooms[..|rooms| - 1]) + [rooms[|rooms| - 1].center]
  }

  /** Element `i` of the snapshot is the centre of room `i`. */
  lemma {:induction false} CentersAt(rooms: seq<RoomRendererRecord>)
    ensures forall i :: 0 <= i < |rooms| ==> CentersOf(rooms)[i] == rooms[i].center
  {
    if |rooms| > 0 {
      var n := |rooms| - 1;
      CentersAt(rooms[..n]);
      assert forall i :: 0 <= i < n ==> rooms[..n][i] == rooms[i];
    }
  }

  /** `EnabledRooms` after the pass over rooms whose states are `states`: the rooms that are On, in order. */
  function Enabled(rooms: seq<RoomRendererRecord>, states: seq<RenderState>): (r: seq<RoomRendererRecord>)
    requires |states| == |rooms|
    ensures |r| <= |rooms|
    ensures forall i :: 0 <= i < |rooms| && states[i] == On ==> rooms[i] in r
    ensures forall x :: x in r ==> exists i :: 0 <= i < |rooms| && states[i] == On && rooms[i] == x
  {
    if |rooms| == 0 then []
    else
      var n := |rooms| - 1;
      var front := Enabled(rooms[..n], states[..n]);
      assert forall i :: 0 <= i < n ==> rooms[..n][i] == rooms[i] && states[..n][i] == states[i];
      front + (if states[n] == On then [rooms[n]] else [])
  }

  lemma EnabledStep(rooms: seq<RoomRendererRecord>, states: seq<RenderState>, k: int)
    requires 0 <= k < |rooms| && |states| == |rooms|
    ensures Enabled(rooms[..k + 1], states[..k + 1]) ==
            Enabled(rooms[..k], states[..k]) + (if states[k] == On then [rooms[k]] else [])
  {
    assert rooms[..k + 1][..k] == rooms[..k];
    assert states[..k + 1][..k] == states[..k];
  }

  /** One more room at the end of a list adds its lights, and adds them to the on-lights when it is On. */
  lemma LightsAppend(e: seq<RoomRendererRecord>, r: RoomRendererRecord)
    ensures OnLights(e + [r]) == OnLights(e) + (if r.renderState == On then r.lights else [])
    ensures AllLights(e + [r]) == AllLights(e) + r.lights
  {
    assert (e + [r])[..|e|] == e;
  }

  /** Every enabled room is On, so its on-lights and all its lights agree. */
  lemma {:induction false} EnabledAllOn(rooms: seq<RoomRendererRecord>, states: seq<RenderState>, k: int)
    requires 0 <= k <= |rooms| && states == StatesOf(rooms)
    ensures OnLights(Enabled(rooms[..k], states[..k])) == AllLights(Enabled(rooms[..k], states[..k]))
  {
    if k > 0 {
      EnabledAllOn(rooms, states, k - 1);
      EnabledStep(rooms, states, k - 1);
      if states[k - 1] == On {
        StatesAt(rooms);
        LightsAppend(Enabled(rooms[..k - 1], states[..k - 1]), rooms[k - 1]);
      } else {
        assert Enabled(rooms[..k - 1], states[..k - 1]) + [] == Enabled(rooms[..k - 1], states[..k - 1]);
      }
    }
  }

  /** The lights of the enabled rooms are the lights of the rooms that are On. */
  lemma {:induction false} EnabledMembers(rooms: seq<RoomRendererRecord>, states: seq<RenderState>, k: int, l: int)
    requires 0 <= k <= |rooms| && |states| == |rooms|
    ensures l in AllLights(Enabled(rooms[..k], states[..k])) <==> InRoomsWith(rooms, states, k, On, l)
  {
    if k > 0 {
      EnabledMembers(rooms, states, k - 1, l);
      EnabledStep(rooms, states, k - 1);
      InRoomsWithStep(rooms, states, k - 1, On, l);
      if states[k - 1] == On {
        LightsAppend(Enabled(rooms[..k - 1], states[..k - 1]), rooms[k - 1]);
      } else {
        assert Enabled(rooms[..k - 1], states[..k - 1]) + [] == Enabled(rooms[..k - 1], states[..k - 1]);
      }
    }
  }

  /**
   * The lights the shadow selection reads from the enabled rooms: every one of them is On, so its on-lights
   * and all its lights agree, and they are the lights of the rooms that are On.
   */
  lemma EnabledLights(rooms: seq<RoomRendererRecord>, states: seq<RenderState>, k: int, l: int)
    requires 0 <= k <= |rooms| && states == StatesOf(rooms)
    ensures OnLights(Enabled(rooms[..k], states[..k])) == AllLights(Enabled(rooms[..k], states[..k]))
    ensures l in AllLights(Enabled(rooms[..k], states[..k])) <==> InRoomsWith(rooms, states, k, On, l)
  {
    EnabledAllOn(rooms, states, k);
    EnabledMembers(rooms, states, k, l);
  }

  /** Light `l` belongs to one of the first `k` rooms. */
  ghost predicate InAnyRoom(rooms: seq<RoomRendererRecord>, k: int, l: int)
    requires 0 <= k <= |rooms|
  {
    exists i :: 0 <= i < k && l in rooms[i].lights
  }

  /** Every room is On or Off, so a light of the rooms is in a room that is On or in one that is Off. */
  lemma StatesCover(rooms: seq<RoomRendererRecord>, states: seq<RenderState>, k: int, l: int)
    requires 0 <= k <= |rooms| && |states| == |rooms|
    ensures InAnyRoom(rooms, k, l) <==> InRoomsWith(rooms, states, k, On, l) || InRoomsWith(rooms, states, k, Off, l)
  {
    if InAnyRoom(rooms, k, l) {
      var i :| 0 <= i < k && l in rooms[i].lights;
      if states[i] == On {
        assert InRoomsWith(rooms, states, k, On, l);
      } else {
        assert InRoomsWith(rooms, states, k, Off, l);
      }
    }
  }

  /** The first `k + 1` rooms hold `l` when the first `k` do or room `k` does. */
  lemma InAnyRoomStep(rooms: seq<RoomRendererRecord>, k: int, l: int)
    requires 0 <= k < |rooms|
    ensures InAnyRoom(rooms, k + 1, l) <==> InAnyRoom(rooms, k, l) || l in rooms[k].lights
  {
    if InAnyRoom(rooms, k + 1, l) && l !in rooms[k].lights {
      var i :| 0 <= i < k + 1 && l in rooms[i].lights;
      assert i < k;
    }
    if l in rooms[k].lights {
      assert InAnyRoom(rooms, k + 1, l);
    }
  }

  /** Every live light of the first `k` rooms has its originals in the cache. */
  ghost predicate CachedIn(rooms: seq<RoomRendererRecord>, k: int, live: seq<bool>, m: map<int, real>,
                           h: map<int, bool>, l: int)
    requires 0 <= k <= |rooms| && 0 <= l < |live|
  {
    live[l] && InAnyRoom(rooms, k, l) ==> l in m && l in h
  }

  /** Caching the lights of room `k` extends `CachedIn` to the first `k + 1` rooms. */
  lemma CachedStep(rooms: seq<RoomRendererRecord>, k: int, live: seq<bool>, m: map<int, real>, h: map<int, bool>,
                   v: seq<real>, w: seq<bool>, l: int)
    requires 0 <= k < |rooms| && 0 <= l < |live| && |v| == |w| == |live|
    requires CachedIn(rooms, k, live, m, h, l)
    ensures CachedIn(rooms, k + 1, live, CachedAll(m, rooms[k].lights, live, v), CachedAll(h, rooms[k].lights, live, w), l)
  {
    InAnyRoomStep(rooms, k, l);
    assert l in LightIntensityUtils.LiveIn(rooms[k].lights, live) <==> live[l] && l in rooms[k].lights;
  }

  /**
   * `ForceAllOff` after the first `k` rooms: every live light of them is dark, every other light untouched.
   */
  ghost predicate Darkened(rooms: seq<RoomRendererRecord>, k: int, live: seq<bool>, i0: seq<real>, s0: seq<Shadows>,
                           intensity: seq<real>, shadows: seq<Shadows>, l: int)
    requires 0 <= k <= |rooms| && |i0| == |s0| == |intensity| == |shadows| == |live| && 0 <= l < |live|
  {
    if live[l] && InAnyRoom(rooms, k, l) then intensity[l] == 0.0 && shadows[l] == NoShadows
    else intensity[l] == i0[l] && shadows[l] == s0[l]
  }

  lemma DarkenedStep(rooms: seq<RoomRendererRecord>, k: int, live: seq<bool>, i0: seq<real>, s0: seq<Shadows>,
                     before: seq<real>, beforeShadows: seq<Shadows>, after: seq<real>, afterShadows: seq<Shadows>, l: int)
    requires 0 <= k < |rooms| && |i0| == |s0| == |before| == |beforeShadows| == |after| == |afterShadows| == |live|
    requires 0 <= l < |live|
    requires Darkened(rooms, k, live, i0, s0, before, beforeShadows, l)
    requires LightZeroed(rooms[k].lights, live, before, beforeShadows, after, afterShadows, l)
    ensures Darkened(rooms, k + 1, live, i0, s0, after, afterShadows, l)
  {
    InAnyRoomStep(rooms, k, l);
  }

  /** Renderer `r` belongs to one of the first `k` rooms whose state is `s`. */
  ghost predicate InRenderersWith(rooms: seq<RoomRendererRecord>, states: seq<RenderState>, k: int, s: RenderState,
                                  r: int)
    requires 0 <= k <= |rooms| && |states| == |rooms|
  {
    exists i :: 0 <= i < k && states[i] == s && r in rooms[i].renderers
  }

  /**
   * Renderer `r` after each of the first `k` rooms was switched to its state in `states`: enabled in a room
   * switched On, disabled in one switched Off, its flag kept when it belongs to none of them.
   */
  ghost predicate Switched(rooms: seq<RoomRendererRecord>, states: seq<RenderState>, k: int, live: seq<bool>,
                           enabled0: seq<bool>, enabled: seq<bool>, r: int)
    requires 0 <= k <= |rooms| && |states| == |rooms| && |enabled0| == |enabled| == |live| && 0 <= r < |live|
  {
    if live[r] && InRenderersWith(rooms, states, k, On, r) then enabled[r]
    else if live[r] && InRenderersWith(rooms, states, k, Off, r) then !enabled[r]
    else enabled[r] == enabled0[r]
  }

  /** Switching room `k` to `states[k]` extends `Switched` to the first `k + 1` rooms. */
  lemma SwitchedStep(rooms: seq<RoomRendererRecord>, states: seq<RenderState>, k: int, live: seq<bool>,
                     enabled0: seq<bool>, before: seq<bool>, after: seq<bool>, r: int)
    requires ListsDisjoint(rooms) && 0 <= k < |rooms| && |states| == |rooms|
    requires |enabled0| == |before| == |after| == |live| && 0 <= r < |live|
    requires Switched(rooms, states, k, live, enabled0, before, r)
    requires RendererSet(rooms[k].renderers, live, before, after, states[k] == On, r)
    ensures Switched(rooms, states, k + 1, live, enabled0, after, r)
  {
    if r in rooms[k].renderers {
      RendererNotInEarlier(rooms, states, k, r);
      assert InRenderersWith(rooms, states, k + 1, states[k], r);
      RenderersExclusive(rooms, states, k + 1, r);
    } else {
      assert InRenderersWith(rooms, states, k + 1, On, r) == InRenderersWith(rooms, states, k, On, r) by {
        if InRenderersWith(rooms, states, k + 1, On, r) {
          var i :| 0 <= i < k + 1 && states[i] == On && r in rooms[i].renderers;
          assert i < k;
        }
      }
      assert InRenderersWith(rooms, states, k + 1, Off, r) == InRenderersWith(rooms, states, k, Off, r) by {
        if InRenderersWith(rooms, states, k + 1, Off, r) {
          var i :| 0 <= i < k + 1 && states[i] == Off && r in rooms[i].renderers;
          assert i < k;
        }
      }
    }
  }

  /** A renderer of room `k` belongs to none of the rooms before it. */
  lemma RendererNotInEarlier(rooms: seq<RoomRendererRecord>, states: seq<RenderState>, k: int, r: int)
    requires ListsDisjoint(rooms) && 0 <= k < |rooms| && |states| == |rooms| && r in rooms[k].renderers
    ensures !InRenderersWith(rooms, states, k, On, r) && !InRenderersWith(rooms, states, k, Off, r)
  {
    forall i | 0 <= i < k
      ensures r !in rooms[i].renderers
    {
      ListsApart(rooms, i, k);
    }
  }

  /** A renderer belongs to rooms of both states only if it is listed twice. */
  lemma RenderersExclusive(rooms: seq<RoomRendererRecord>, states: seq<RenderState>, k: int, r: int)
    requires ListsDisjoint(rooms) && 0 <= k <= |rooms| && |states| == |rooms|
    ensures !(InRenderersWith(rooms, states, k, On, r) && InRenderersWith(rooms, states, k, Off, r))
  {
    if InRenderersWith(rooms, states, k, On, r) && InRenderersWith(rooms, states, k, Off, r) {
      var i :| 0 <= i < k && states[i] == On && r in rooms[i].renderers;
      var j :| 0 <= j < k && states[j] == Off && r in rooms[j].renderers;
      ListsApart(rooms, i, j);
    }
  }

  /**
   * Between two light states only live lights of the first `k` rooms whose state is Off changed, and what
   * the cache's getters report was kept.
   */
  ghost predicate TouchedOnlyOff(rooms: seq<RoomRendererRecord>, states: seq<RenderState>, k: int, live: seq<bool>,
                                 m0: map<int, real>, h0: map<int, bool>, i0: seq<real>, s0: seq<Shadows>,
                                 m1: map<int, real>, h1: map<int, bool>, i1: seq<real>, s1: seq<Shadows>, l: int)
    requires 0 <= k <= |rooms| && |states| == |rooms| && |i0| == |s0| == |i1| == |s1| == |live| && 0 <= l < |live|
  {
    OriginalsKept(m0, h0, i0, s0, m1, h1, i1, s1, live, l) &&
    (!(live[l] && InRoomsWith(rooms, states, k, Off, l)) ==> i1[l] == i0[l] && s1[l] == s0[l])
  }

  /** Zeroing room `j`, one of the first `k` and Off, keeps the lights touched only in rooms that are Off. */
  lemma TouchedZeroed(rooms: seq<RoomRendererRecord>, states: seq<RenderState>, k: int, j: int, live: seq<bool>,
                      m0: map<int, real>, h0: map<int, bool>, i0: seq<real>, s0: seq<Shadows>,
                      m1: map<int, real>, h1: map<int, bool>, i1: seq<real>, s1: seq<Shadows>,
                      m2: map<int, real>, h2: map<int, bool>, i2: seq<real>, s2: seq<Shadows>, l: int)
    requires 0 <= j < k <= |rooms| && |states| == |rooms| && states[j] == Off
    requires |i0| == |s0| == |i1| == |s1| == |i2| == |s2| == |live| && 0 <= l < |live|
    requires TouchedOnlyOff(rooms, states, k, live, m0, h0, i0, s0, m1, h1, i1, s1, l)
    requires LightZeroed(rooms[j].lights, live, i1, s1, i2, s2, l)
    requires OriginalsKept(m1, h1, i1, s1, m2, h2, i2, s2, live, l)
    ensures TouchedOnlyOff(rooms, states, k, live, m0, h0, i0, s0, m2, h2, i2, s2, l)
  {
    if live[l] && l in rooms[j].lights {
      assert InRoomsWith(rooms, states, k, Off, l);
    }
  }

  /** What holds of the first `k` rooms holds of the first `k + 1`. */
  lemma TouchedWiden(rooms: seq<RoomRendererRecord>, states: seq<RenderState>, k: int, live: seq<bool>,
                     m0: map<int, real>, h0: map<int, bool>, i0: seq<real>, s0: seq<Shadows>,
                     m1: map<int, real>, h1: map<int, bool>, i1: seq<real>, s1: seq<Shadows>, l: int)
    requires 0 <= k < |rooms| && |states| == |rooms| && |i0| == |s0| == |i1| == |s1| == |live| && 0 <= l < |live|
    requires TouchedOnlyOff(rooms, states, k, live, m0, h0, i0, s0, m1, h1, i1, s1, l)
    ensures TouchedOnlyOff(rooms, states, k + 1, live, m0, h0, i0, s0, m1, h1, i1, s1, l)
  {
    InRoomsWithStep(rooms, states, k, Off, l);
  }

  /** Zeroing the same lights twice through the cache caches them once: the second pass finds them cached. */
  lemma CachedAllTwice<V>(m: map<int, V>, ls: seq<int>, live: seq<bool>, v: seq<V>, w: seq<V>)
    requires |v| == |live| && |w| == |live|
    ensures CachedAll(CachedAll(m, ls, live, v), ls, live, w) == CachedAll(m, ls, live, v)
  {
  }

  /**
   * Renderer `r` is in a room among the visited rooms `done` whose state changed from `s0` to `s1`, and
   * changed to `s`.
   */
  ghost predicate ChangedTo(rooms: seq<RoomRendererRecord>, s0: seq<RenderState>, s1: seq<RenderState>,
                            done: seq<int>, s: RenderState, r: int)
    requires |s0| == |rooms| && |s1| == |rooms|
  {
    exists t :: 0 <= t < |done| && 0 <= done[t] < |rooms| && s0[done[t]] != s1[done[t]] && s1[done[t]] == s &&
                r in rooms[done[t]].renderers
  }

  /**
   * What `Tick` leaves on renderer `r` after visiting the rooms `done`: the renderers of a room whose state
   * changed follow the new state, every other renderer keeps its flag.
   */
  ghost predicate Flipped(rooms: seq<RoomRendererRecord>, s0: seq<RenderState>, s1: seq<RenderState>,
                          done: seq<int>, live: seq<bool>, enabled0: seq<bool>, enabled: seq<bool>, r: int)
    requires |s0| == |rooms| && |s1| == |rooms| && |enabled0| == |enabled| == |live| && 0 <= r < |live|
  {
    if live[r] && ChangedTo(rooms, s0, s1, done, On, r) then enabled[r]
    else if live[r] && ChangedTo(rooms, s0, s1, done, Off, r) then !enabled[r]
    else enabled[r] == enabled0[r]
  }

  /** A renderer of room `i` is a renderer of no other room. */
  lemma RendererOnce(rooms: seq<RoomRendererRecord>, i: int, j: int, r: int)
    requires ListsDisjoint(rooms) && 0 <= i < |rooms| && 0 <= j < |rooms| && i != j && r in rooms[i].renderers
    ensures r !in rooms[j].renderers
  {
    ListsApart(rooms, i, j);
  }

  lemma ChangedToStep(rooms: seq<RoomRendererRecord>, s0: seq<RenderState>, s1: seq<RenderState>, done: seq<int>,
                      j: int, now: seq<int>, s: RenderState, r: int)
    requires |s0| == |rooms| && |s1| == |rooms| && 0 <= j < |rooms| && now == done + [j]
    ensures ChangedTo(rooms, s0, s1, now, s, r) <==>
            ChangedTo(rooms, s0, s1, done, s, r) || (s0[j] != s1[j] && s1[j] == s && r in rooms[j].renderers)
  {
    if ChangedTo(rooms, s0, s1, now, s, r) && !(s0[j] != s1[j] && s1[j] == s && r in rooms[j].renderers) {
      var t :| 0 <= t < |now| && 0 <= now[t] < |rooms| && s0[now[t]] != s1[now[t]] && s1[now[t]] == s &&
               r in rooms[now[t]].renderers;
      assert t < |done| && now[t] == done[t];
    }
    if ChangedTo(rooms, s0, s1, done, s, r) {
      var t :| 0 <= t < |done| && 0 <= done[t] < |rooms| && s0[done[t]] != s1[done[t]] && s1[done[t]] == s &&
               r in rooms[done[t]].renderers;
      assert now[t] == done[t];
    }
    if s0[j] != s1[j] && s1[j] == s && r in rooms[j].renderers {
      assert now[|done|] == j;
    }
  }

  /** A renderer of room `j` is in no room visited before it. */
  lemma NotChangedBefore(rooms: seq<RoomRendererRecord>, s0: seq<RenderState>, s1: seq<RenderState>, done: seq<int>,
                         j: int, r: int)
    requires ListsDisjoint(rooms) && |s0| == |rooms| && |s1| == |rooms| && 0 <= j < |rooms| && j !in done
    requires r in rooms[j].renderers
    ensures !ChangedTo(rooms, s0, s1, done, On, r) && !ChangedTo(rooms, s0, s1, done, Off, r)
  {
    forall t | 0 <= t < |done| && 0 <= done[t] < |rooms|
      ensures r !in rooms[done[t]].renderers
    {
      RendererOnce(rooms, j, done[t], r);
    }
  }

  /** Visiting room `j`, whose renderers were switched exactly when its state changed, extends `Flipped`. */
  lemma FlippedStep(rooms: seq<RoomRendererRecord>, s0: seq<RenderState>, s1: seq<RenderState>, done: seq<int>,
                    j: int, now: seq<int>, live: seq<bool>, enabled0: seq<bool>, before: seq<bool>,
                    after: seq<bool>, r: int)
    requires ListsDisjoint(rooms) && |s0| == |rooms| && |s1| == |rooms| && 0 <= j < |rooms| && j !in done
    requires now == done + [j] && |enabled0| == |before| == |after| == |live| && 0 <= r < |live|
    requires Flipped(rooms, s0, s1, done, live, enabled0, before, r)
    requires s0[j] != s1[j] ==> RendererSet(rooms[j].renderers, live, before, after, s1[j] == On, r)
    requires s0[j] == s1[j] ==> after == before
    ensures Flipped(rooms, s0, s1, now, live, enabled0, after, r)
  {
    ChangedToStep(rooms, s0, s1, done, j, now, On, r);
    ChangedToStep(rooms, s0, s1, done, j, now, Off, r);
    if r in rooms[j].renderers {
      NotChangedBefore(rooms, s0, s1, done, j, r);
    }
  }

  /**
   * Light `l` after `ApplyIntensityAndShadows`, against the state `(m0, h0, i0, s0)` it started from and the
   * shadows `mid` it had between the intensity pass and the shadow selection: the cache's getters report
   * what they did; a live light of a room that is On has the falloff of its original, and kept its shadows
   * up to the selection unless that is not positive; a live light of a room that is Off is dark and has no
   * shadows; every other light is untouched.
   */
  ghost predicate LightSettled(rooms: seq<RoomRendererRecord>, states: seq<RenderState>, cfg: IntensityConfig,
                               pow: (real, real) -> real, dist: seq<real>, live: seq<bool>,
                               m0: map<int, real>, h0: map<int, bool>, i0: seq<real>, s0: seq<Shadows>,
                               m: map<int, real>, h: map<int, bool>, intensity: seq<real>, mid: seq<Shadows>,
                               shadows: seq<Shadows>, l: int)
    requires |states| == |rooms|
    requires |i0| == |s0| == |intensity| == |mid| == |shadows| == |dist| == |live| && 0 <= l < |live|
  {
    OriginalsKept(m0, h0, i0, s0, m, h, intensity, shadows, live, l) &&
    if live[l] && InRoomsWith(rooms, states, |rooms|, On, l) then
      intensity[l] == IntensityFor(cfg, dist[l], OriginalIntensity(m0, l, live, i0), pow) &&
      mid[l] == (if intensity[l] <= 0.0 then NoShadows else s0[l])
    else if live[l] && InRoomsWith(rooms, states, |rooms|, Off, l) then
      intensity[l] == 0.0 && mid[l] == NoShadows && shadows[l] == NoShadows
    else
      intensity[l] == i0[l] && mid[l] == s0[l] && shadows[l] == s0[l]
  }

  /**
   * The intensity pass followed by a selection that leaves every light outside the rooms that are On alone
   * settles each light.
   */
  lemma Settle(rooms: seq<RoomRendererRecord>, states: seq<RenderState>, cfg: IntensityConfig,
               pow: (real, real) -> real, dist: seq<real>, live: seq<bool>,
               m0: map<int, real>, h0: map<int, bool>, i0: seq<real>, s0: seq<Shadows>,
               m: map<int, real>, h: map<int, bool>, intensity: seq<real>, mid: seq<Shadows>,
               shadows: seq<Shadows>, l: int)
    requires |states| == |rooms|
    requires |i0| == |s0| == |intensity| == |mid| == |shadows| == |dist| == |live| && 0 <= l < |live|
    requires Passed(rooms, states, |rooms|, cfg, pow, dist, m0, i0, s0, live, intensity, mid, l)
    requires OriginalsKept(m0, h0, i0, s0, m, h, intensity, mid, live, l)
    requires CachedIn(rooms, |rooms|, live, m, h, l)
    requires !(live[l] && InRoomsWith(rooms, states, |rooms|, On, l)) ==> shadows[l] == mid[l]
    ensures LightSettled(rooms, states, cfg, pow, dist, live, m0, h0, i0, s0, m, h, intensity, mid, shadows, l)
  {
    StatesCover(rooms, states, |rooms|, l);
  }

  /**
   * A pass that settles every light from the state a loop left, where that loop touched only lights of rooms
   * that end Off, settles every light from the state before the loop.
   */
  lemma SettleAfterLoop(rooms: seq<RoomRendererRecord>, states: seq<RenderState>, cfg: IntensityConfig,
                        pow: (real, real) -> real, dist: seq<real>, live: seq<bool>,
                        m0: map<int, real>, h0: map<int, bool>, i0: seq<real>, s0: seq<Shadows>,
                        m1: map<int, real>, h1: map<int, bool>, i1: seq<real>, s1: seq<Shadows>,
                        m: map<int, real>, h: map<int, bool>, intensity: seq<real>, mid: seq<Shadows>,
                        shadows: seq<Shadows>, l: int)
    requires ListsDisjoint(rooms) && |states| == |rooms|
    requires |i0| == |s0| == |i1| == |s1| == |intensity| == |mid| == |shadows| == |dist| == |live| && 0 <= l < |live|
    requires TouchedOnlyOff(rooms, states, |rooms|, live, m0, h0, i0, s0, m1, h1, i1, s1, l)
    requires LightSettled(rooms, states, cfg, pow, dist, live, m1, h1, i1, s1, m, h, intensity, mid, shadows, l)
    ensures LightSettled(rooms, states, cfg, pow, dist, live, m0, h0, i0, s0, m, h, intensity, mid, shadows, l)
  {
    StatesExclusive(rooms, states, |rooms|, l);
  }
}

/**
 * `ShadowSelectionService`: which lights of the rooms that are on cast shadows, and which kind. A light that
 * originally had shadows becomes a candidate when it is lit and near enough; the candidates are sorted by
 * distance and only the nearest `ShadowsCount` keep their mode. Lights between the enter and exit distances are
 * left as they are: that band is the hysteresis.
 *
 * `Vector3.Distance(l.transform.position, camPos)` is an input: `dist[l]` for light `l`.
 */
module ShadowSelection {
  import opened Geometry
  import opened Sorting
  import opened Scene
  import opened LightCaching
  import opened RoomRecords

  /** `DistanceShadowsConfig`. `SoftExit` is carried but never read. */
  datatype DistanceShadowsConfig = DistanceShadowsConfig(forceLowResolution: bool, maxEnter: real, maxExit: real,
                                                         shadowsCount: int, softEnter: real, softExit: real)

  /** An entry of `_candidates`: the light, its distance and the mode it asks for. */
  datatype Candidate = Candidate(light: int, d: real, mode: Shadows)

  /** The sort key of the candidates. */
  function Distance(c: Candidate): real { c.d }

  /** What the collecting loop does with a light: leave it, switch its shadows off, or make it a candidate. */
  datatype Verdict = Skip | Drop | Keep(mode: Shadows)

  /**
   * The collecting loop on one live light: skip it unless it originally had shadows; drop it when unlit or
   * beyond the exit distance; otherwise Soft up to `SoftEnter`, Hard up to `MaxEnter`, and no verdict beyond.
   */
  function Classify(had: bool, intensity: real, d: real, cfg: DistanceShadowsConfig): (v: Verdict)
    ensures v.Keep? ==> v.mode != NoShadows
  {
    if !had then Skip
    else if intensity <= 0.0 then Drop
    else if d > cfg.maxExit then Drop
    else if d <= cfg.softEnter then Keep(Soft)
    else if d <= cfg.maxEnter then Keep(Hard)
    else Skip
  }

  /**
   * With `SoftEnter <= MaxEnter <= MaxExit`, a lit, originally shadowed light is a Soft candidate exactly up to
   * `SoftEnter`, a Hard one exactly between `SoftEnter` and `MaxEnter`, kept as it is exactly between
   * `MaxEnter` and `MaxExit`, and dropped exactly beyond `MaxExit`.
   */
  lemma ClassifyBands(had: bool, intensity: real, d: real, cfg: DistanceShadowsConfig)
    requires cfg.softEnter <= cfg.maxEnter <= cfg.maxExit
    ensures Classify(had, intensity, d, cfg) == Keep(Soft) <==> had && intensity > 0.0 && d <= cfg.softEnter
    ensures Classify(had, intensity, d, cfg) == Keep(Hard) <==>
              had && intensity > 0.0 && cfg.softEnter < d <= cfg.maxEnter
    ensures Classify(had, intensity, d, cfg) == Skip <==> !had || (intensity > 0.0 && cfg.maxEnter < d <= cfg.maxExit)
    ensures Classify(had, intensity, d, cfg) == Drop <==> had && (intensity <= 0.0 || d > cfg.maxExit)
  {
  }

  /** The state the selection reads: the cached shadow flags, the lights before the call, and the distances. */
  datatype World = World(had: map<int, bool>, live: seq<bool>, intensity: seq<real>, shadows: seq<Shadows>,
                         dist: seq<real>)

  ghost predicate WorldValid(w: World) {
    |w.intensity| == |w.live| && |w.shadows| == |w.live| && |w.dist| == |w.live|
  }

  /** The verdict on light `l`, from what the cache said it originally had. */
  function VerdictOf(w: World, cfg: DistanceShadowsConfig, l: int): Verdict
    requires WorldValid(w) && 0 <= l < |w.live|
  {
    Classify(OriginalShadow(w.had, l, w.live, w.shadows), w.intensity[l], w.dist[l], cfg)
  }

  /** The mode a light asks for, or none. */
  function KeepMode(v: Verdict): Shadows {
    if v.Keep? then v.mode else NoShadows
  }

  /** The lights of the rooms that are there and on, room by room. */
  ghost function OnLights(rooms: seq<RoomRendererRecord?>): seq<int>
    reads rooms
  {
    if |rooms| == 0 then []
    else
      var r := rooms[|rooms| - 1];
      OnLights(rooms[..|rooms| - 1]) + (if r != null && r.renderState == On then r.lights else [])
  }

  /** The lights of the rooms that are there, on or off, room by room. */
  ghost function AllLights(rooms: seq<RoomRendererRecord?>): seq<int> {
    if |rooms| == 0 then []
    else
      var r := rooms[|rooms| - 1];
      AllLights(rooms[..|rooms| - 1]) + (if r != null then r.lights else [])
  }

  lemma OnLightsStep(rooms: seq<RoomRendererRecord?>, k: int)
    requires 0 <= k < |rooms|
    ensures OnLights(rooms[..k + 1]) ==
            OnLights(rooms[..k]) + (if rooms[k] != null && rooms[k].renderState == On then rooms[k].lights else [])
    ensures AllLights(rooms[..k + 1]) == AllLights(rooms[..k]) + (if rooms[k] != null then rooms[k].lights else [])
  {
    assert rooms[..k + 1][..k] == rooms[..k];
  }

  /** A light of a room that is on is a light of the rooms. */
  lemma {:induction false} OnLightsInAll(rooms: seq<RoomRendererRecord?>, l: int)
    ensures l in OnLights(rooms) ==> l in AllLights(rooms)
  {
    if |rooms| > 0 {
      OnLightsInAll(rooms[..|rooms| - 1], l);
    }
  }

  /** The candidates the collecting loop appends for the lights `ls`, in order. */
  ghost function CandidatesOf(ls: seq<int>, w: World, cfg: DistanceShadowsConfig): seq<Candidate>
    requires WorldValid(w)
  {
    if |ls| == 0 then []
    else
      var l := ls[|ls| - 1];
      CandidatesOf(ls[..|ls| - 1], w, cfg) +
      (if 0 <= l < |w.live| && w.live[l] && VerdictOf(w, cfg, l).Keep?
       then [Candidate(l, w.dist[l], VerdictOf(w, cfg, l).mode)] else [])
  }

  /** A candidate of light `l` is at `l`'s distance, with the mode `l` asks for. */
  ghost predicate WellFormed(w: World, cfg: DistanceShadowsConfig, c: Candidate) {
    WorldValid(w) && 0 <= c.light < |w.live| && w.live[c.light] && VerdictOf(w, cfg, c.light).Keep? &&
    c.d == w.dist[c.light] && c.mode == VerdictOf(w, cfg, c.light).mode
  }

  /** The candidates are exactly the live lights of the list that ask for a mode, and each is well formed. */
  lemma {:induction false} CandidatesOfMembers(ls: seq<int>, w: World, cfg: DistanceShadowsConfig, c: Candidate)
    requires WorldValid(w)
    ensures c in CandidatesOf(ls, w, cfg) ==> WellFormed(w, cfg, c) && c.light in ls
    ensures WellFormed(w, cfg, c) && c.light in ls ==> c in CandidatesOf(ls, w, cfg)
  {
    if |ls| > 0 {
      var front := ls[..|ls| - 1];
      CandidatesOfMembers(front, w, cfg, c);
      assert ls == front + [ls[|ls| - 1]];
    }
  }

  /** What the collecting loop leaves on light `l` once it has seen `visited`: dropped lights lose their shadows. */
  ghost predicate Collected(visited: seq<int>, w: World, cfg: DistanceShadowsConfig, shadows: seq<Shadows>, l: int)
    requires WorldValid(w) && |shadows| == |w.live| && 0 <= l < |w.live|
  {
    shadows[l] == if w.live[l] && l in visited && VerdictOf(w, cfg, l) == Drop then NoShadows else w.shadows[l]
  }

  /** What `ForceNone` leaves on light `l`: a live light of the list loses its shadows, every other keeps them. */
  ghost predicate Cleared(ls: seq<int>, live: seq<bool>, shadows0: seq<Shadows>, shadows: seq<Shadows>, l: int)
    requires |shadows0| == |shadows| == |live| && 0 <= l < |live|
  {
    shadows[l] == if live[l] && l in ls then NoShadows else shadows0[l]
  }

  /**
   * What `Apply` leaves, given the lights `all` of the rooms it is handed and the lights `onLights` of those
   * that are on, the world it judges, and the resolutions `res0` and candidates `c0` before it: with no budget
   * the candidates are kept and every listed light loses its shadows; with a budget the candidates are those
   * of the on-lights, nearest first; without any candidate every listed light loses its shadows; with some,
   * every light is as `Selected` says.
   */
  ghost predicate Chosen(all: seq<int>, onLights: seq<int>, cfg: DistanceShadowsConfig, w: World,
                         res0: seq<ShadowResolution>, c0: seq<Candidate>, c: seq<Candidate>, shadows: seq<Shadows>,
                         res: seq<ShadowResolution>)
    requires WorldValid(w) && |res0| == |shadows| == |res| == |w.live|
  {
    (cfg.shadowsCount <= 0 ==> c == c0) &&
    (cfg.shadowsCount <= 0 || |c| == 0 ==>
       res == res0 && forall l :: 0 <= l < |w.live| ==> Cleared(all, w.live, w.shadows, shadows, l)) &&
    (cfg.shadowsCount > 0 ==> multiset(c) == multiset(CandidatesOf(onLights, w, cfg)) && SortedBy(c, Distance)) &&
    (cfg.shadowsCount > 0 && |c| > 0 ==>
       forall l :: 0 <= l < |w.live| ==>
         Selected(onLights, c, Allowed(cfg, c), cfg.forceLowResolution, w, cfg, res0, shadows, res, l))
  }

  /** A light listed in neither list keeps its shadows and its resolution. */
  lemma ChosenLeavesOthers(all: seq<int>, onLights: seq<int>, cfg: DistanceShadowsConfig, w: World,
                           res0: seq<ShadowResolution>, c0: seq<Candidate>, c: seq<Candidate>, shadows: seq<Shadows>,
                           res: seq<ShadowResolution>, l: int)
    requires WorldValid(w) && |res0| == |shadows| == |res| == |w.live| && 0 <= l < |w.live|
    requires Chosen(all, onLights, cfg, w, res0, c0, c, shadows, res)
    requires !(w.live[l] && l in all) && !(w.live[l] && l in onLights)
    ensures shadows[l] == w.shadows[l] && res[l] == res0[l]
  {
    if cfg.shadowsCount <= 0 || |c| == 0 {
      assert Cleared(all, w.live, w.shadows, shadows, l);
    } else {
      assert Selected(onLights, c, Allowed(cfg, c), cfg.forceLowResolution, w, cfg, res0, shadows, res, l);
    }
  }

  /** Light `l` has a candidate among the first `upTo`. */
  ghost predicate Occurs(c: seq<Candidate>, upTo: int, l: int)
    requires 0 <= upTo <= |c|
  {
    exists j :: 0 <= j < upTo && c[j].light == l
  }

  /** Every candidate of light `l` among the first `upTo` is within the first `allowed`. */
  ghost predicate Within(c: seq<Candidate>, upTo: int, allowed: int, l: int)
    requires 0 <= upTo <= |c|
  {
    forall j :: 0 <= j < upTo && c[j].light == l ==> j < allowed
  }

  /**
   * What the budget loop leaves on light `l` after the first `upTo` candidates: the last of its candidates
   * decides, its mode within the budget and none beyond; the first one within the budget lowers its
   * resolution when asked.
   */
  ghost predicate Budgeted(c: seq<Candidate>, upTo: int, allowed: int, forceLow: bool, w: World,
                           cfg: DistanceShadowsConfig, collected: seq<Shadows>, res0: seq<ShadowResolution>,
                           shadows: seq<Shadows>, res: seq<ShadowResolution>, l: int)
    requires WorldValid(w) && 0 <= upTo <= |c| && 0 <= allowed && 0 <= l < |w.live|
    requires |collected| == |res0| == |shadows| == |res| == |w.live|
  {
    (if Occurs(c, upTo, l)
     then shadows[l] == (if Within(c, upTo, allowed, l) then KeepMode(VerdictOf(w, cfg, l)) else NoShadows)
     else shadows[l] == collected[l]) &&
    res[l] == (if forceLow && Occurs(c, if upTo < allowed then upTo else allowed, l) then Low else res0[l])
  }

  /**
   * The outcome of the normal path on light `l`: a light of a room that is on keeps its shadows when skipped,
   * loses them when dropped, and as a candidate gets its mode when all its candidates are within the budget
   * and none otherwise. Every other light is untouched.
   */
  ghost predicate Selected(onLights: seq<int>, c: seq<Candidate>, allowed: int, forceLow: bool, w: World,
                           cfg: DistanceShadowsConfig, res0: seq<ShadowResolution>, shadows: seq<Shadows>,
                           res: seq<ShadowResolution>, l: int)
    requires WorldValid(w) && 0 <= allowed && 0 <= l < |w.live| && |res0| == |shadows| == |res| == |w.live|
  {
    if w.live[l] && l in onLights then
      match VerdictOf(w, cfg, l)
      case Skip => shadows[l] == w.shadows[l] && res[l] == res0[l]
      case Drop => shadows[l] == NoShadows && res[l] == res0[l]
      case Keep(m) =>
        shadows[l] == (if Within(c, |c|, allowed, l) then m else NoShadows) &&
        res[l] == (if forceLow && Occurs(c, if |c| < allowed then |c| else allowed, l) then Low else res0[l])
    else shadows[l] == w.shadows[l] && res[l] == res0[l]
  }

  /** The lights that keep their mode: those all of whose candidates are within the first `allowed`. */
  ghost function Granted(c: seq<Candidate>, allowed: int): set<int> {
    set j | 0 <= j < |c| && Within(c, |c|, allowed, c[j].light) :: c[j].light
  }

  /** The lights of the first `k` candidates. */
  ghost function LightsUpTo(c: seq<Candidate>, k: int): set<int>
    requires 0 <= k <= |c|
  {
    set j | 0 <= j < k :: c[j].light
  }

  lemma {:induction false} LightsUpToSize(c: seq<Candidate>, k: int)
    requires 0 <= k <= |c|
    ensures |LightsUpTo(c, k)| <= k
  {
    if k > 0 {
      LightsUpToSize(c, k - 1);
      assert LightsUpTo(c, k) == LightsUpTo(c, k - 1) + {c[k - 1].light};
    }
  }

  /** The budget holds: no more lights keep their mode than `allowed`. */
  lemma GrantedWithinBudget(c: seq<Candidate>, allowed: int)
    requires 0 <= allowed <= |c|
    ensures |Granted(c, allowed)| <= allowed
  {
    assert Granted(c, allowed) <= LightsUpTo(c, allowed) by {
      forall l | l in Granted(c, allowed)
        ensures l in LightsUpTo(c, allowed)
      {
        var j :| 0 <= j < |c| && Within(c, |c|, allowed, c[j].light) && c[j].light == l;
      }
    }
    LightsUpToSize(c, allowed);
    SubsetSize(Granted(c, allowed), LightsUpTo(c, allowed));
  }

  lemma SubsetSize(a: set<int>, b: set<int>)
    requires a <= b
    ensures |a| <= |b|
  {
    assert b == a + (b - a);
  }

  /**
   * Nearest first: for candidates sorted by distance, a light that keeps its mode is no farther than any
   * light that loses it.
   */
  lemma NearestFirst(c: seq<Candidate>, allowed: int, i: int, j: int)
    requires SortedBy(c, Distance)
    requires forall a, b :: 0 <= a < |c| && 0 <= b < |c| && c[a].light == c[b].light ==> c[a].d == c[b].d
    requires 0 <= i < |c| && 0 <= j < |c|
    requires Within(c, |c|, allowed, c[i].light) && !Within(c, |c|, allowed, c[j].light)
    ensures c[i].d <= c[j].d
  {
    var j' :| 0 <= j' < |c| && c[j'].light == c[j].light && j' >= allowed;
    assert i < allowed;
    assert Distance(c[i]) <= Distance(c[j']);
  }

  /** Clearing the light `l` after the lights `done`. */
  lemma ClearedExtends(done: seq<int>, l: int, now: seq<int>, live: seq<bool>, shadows0: seq<Shadows>,
                       before: seq<Shadows>, shadows: seq<Shadows>)
    requires now == done + [l] && |shadows0| == |before| == |shadows| == |live|
    requires forall k :: 0 <= k < |live| ==> Cleared(done, live, shadows0, before, k)
    requires shadows == if 0 <= l < |live| && live[l] then before[l := NoShadows] else before
    ensures forall k :: 0 <= k < |live| ==> Cleared(now, live, shadows0, shadows, k)
  {
    forall k | 0 <= k < |live|
      ensures Cleared(now, live, shadows0, shadows, k)
    {
      assert Cleared(done, live, shadows0, before, k);
      assert k in now <==> k in done || k == l;
    }
  }

  /** The inner loop of `ForceNone` over the lights `ls` of one room, after the lights `done`. */
  method ClearRoom(ls: seq<int>, ghost done: seq<int>, ghost now: seq<int>, ghost shadows0: seq<Shadows>,
                   lights: LightTable)
    requires now == done + ls && lights.Valid() && |shadows0| == |lights.live|
    requires forall k :: 0 <= k < |lights.live| ==> Cleared(done, lights.live, shadows0, lights.shadows, k)
    modifies lights
    ensures lights.Valid() && lights.live == old(lights.live) && lights.intensity == old(lights.intensity)
    ensures lights.resolution == old(lights.resolution)
    ensures forall k :: 0 <= k < |lights.live| ==> Cleared(now, lights.live, shadows0, lights.shadows, k)
  {
    var i := 0;
    ghost var seen := done;
    assert done + ls[..0] == done;
    while i < |ls|
      invariant 0 <= i <= |ls| && seen == done + ls[..i]
      invariant lights.Valid() && lights.live == old(lights.live) && lights.intensity == old(lights.intensity)
      invariant lights.resolution == old(lights.resolution)
      invariant forall k :: 0 <= k < |lights.live| ==> Cleared(seen, lights.live, shadows0, lights.shadows, k)
    {
      var l := ls[i];
      ghost var before := lights.shadows;
      if lights.IsLive(l) && lights.shadows[l] != NoShadows {
        lights.shadows := lights.shadows[l := NoShadows];
      }
      assert lights.IsLive(l) ==> lights.shadows == before[l := NoShadows];
      ClearedExtends(seen, l, seen + [l], lights.live, shadows0, before, lights.shadows);
      assert ls[..i + 1] == ls[..i] + [l];
      seen := seen + [l];
      i := i + 1;
    }
    assert ls[..|ls|] == ls;
  }

  /** `ForceNone(roomsOn)`: every live light of every room there, on or off, casts no shadows. */
  method ForceNone(rooms: seq<RoomRendererRecord?>, lights: LightTable)
    requires lights.Valid()
    modifies lights
    ensures lights.Valid() && lights.live == old(lights.live) && lights.intensity == old(lights.intensity)
    ensures lights.resolution == old(lights.resolution)
    ensures forall l :: 0 <= l < |lights.live| ==> Cleared(AllLights(rooms), lights.live, old(lights.shadows), lights.shadows, l)
  {
    ghost var shadows0 := lights.shadows;
    var k := 0;
    ghost var seen: seq<int> := [];
    while k < |rooms|
      invariant 0 <= k <= |rooms| && seen == AllLights(rooms[..k])
      invariant lights.Valid() && lights.live == old(lights.live) && lights.intensity == old(lights.intensity)
      invariant lights.resolution == old(lights.resolution)
      invariant forall l :: 0 <= l < |lights.live| ==> Cleared(seen, lights.live, shadows0, lights.shadows, l)
    {
      var room := rooms[k];
      OnLightsStep(rooms, k);
      if room != null {
        ClearRoom(room.lights, seen, seen + room.lights, shadows0, lights);
        seen := seen + room.lights;
      }
      k := k + 1;
    }
    assert rooms[..|rooms|] == rooms;
  }

  class ShadowSelectionService {
    /** `_candidates`, reused from call to call. */
    var candidates: seq<Candidate>

    constructor ()
      ensures candidates == []
    {
      candidates := [];
    }

    /** One light of the collecting loop, after the lights `done`. */
    method CollectLight(ghost done: seq<int>, l: int, ghost now: seq<int>, cache: LightCache, cfg: DistanceShadowsConfig,
                        dist: seq<real>, lights: LightTable, ghost w: World)
      requires now == done + [l] && lights.Valid() && WorldValid(w)
      requires w.had == cache.hadShadows && w.live == lights.live && w.intensity == lights.intensity && w.dist == dist
      requires candidates == CandidatesOf(done, w, cfg)
      requires forall k :: 0 <= k < |w.live| ==> Collected(done, w, cfg, lights.shadows, k)
      modifies this, lights
      ensures lights.Valid() && lights.live == old(lights.live) && lights.intensity == old(lights.intensity)
      ensures lights.resolution == old(lights.resolution)
      ensures candidates == CandidatesOf(now, w, cfg)
      ensures forall k :: 0 <= k < |w.live| ==> Collected(now, w, cfg, lights.shadows, k)
    {
      assert now[..|now| - 1] == done;
      ghost var before := lights.shadows;
      if lights.IsLive(l) {
        assert Collected(done, w, cfg, lights.shadows, l);
        var had := OriginalShadow(cache.hadShadows, l, lights.live, lights.shadows);
        ghost var v := VerdictOf(w, cfg, l);
        if had {
          assert v == Classify(true, lights.intensity[l], dist[l], cfg);
          if lights.intensity[l] <= 0.0 {
            if lights.shadows[l] != NoShadows {
              lights.shadows := lights.shadows[l := NoShadows];
            }
          } else {
            var d := dist[l];
            if d > cfg.maxExit {
              if lights.shadows[l] != NoShadows {
                lights.shadows := lights.shadows[l := NoShadows];
              }
            } else {
              var desired := if d <= cfg.softEnter then Soft else if d <= cfg.maxEnter then Hard else NoShadows;
              if desired != NoShadows {
                candidates := candidates + [Candidate(l, d, desired)];
              }
            }
          }
        }
        assert v == Drop ==> lights.shadows == before[l := NoShadows];
        assert v != Drop ==> lights.shadows == before;
      }
      forall k | 0 <= k < |w.live|
        ensures Collected(now, w, cfg, lights.shadows, k)
      {
        assert Collected(done, w, cfg, before, k);
        assert k in now <==> k in done || k == l;
      }
    }

    /** The inner collecting loop over the lights `ls` of one room, after the lights `done`. */
    method CollectRoom(ls: seq<int>, ghost done: seq<int>, ghost now: seq<int>, cache: LightCache,
                       cfg: DistanceShadowsConfig, dist: seq<real>, lights: LightTable, ghost w: World)
      requires now == done + ls && lights.Valid() && WorldValid(w)
      requires w.had == cache.hadShadows && w.live == lights.live && w.intensity == lights.intensity && w.dist == dist
      requires candidates == CandidatesOf(done, w, cfg)
      requires forall k :: 0 <= k < |w.live| ==> Collected(done, w, cfg, lights.shadows, k)
      modifies this, lights
      ensures lights.Valid() && lights.live == old(lights.live) && lights.intensity == old(lights.intensity)
      ensures lights.resolution == old(lights.resolution)
      ensures candidates == CandidatesOf(now, w, cfg)
      ensures forall k :: 0 <= k < |w.live| ==> Collected(now, w, cfg, lights.shadows, k)
    {
      var i := 0;
      ghost var seen := done;
      assert done + ls[..0] == done;
      while i < |ls|
        invariant 0 <= i <= |ls| && seen == done + ls[..i]
        invariant lights.Valid() && lights.live == old(lights.live) && lights.intensity == old(lights.intensity)
        invariant lights.resolution == old(lights.resolution)
        invariant candidates == CandidatesOf(seen, w, cfg)
        invariant forall k :: 0 <= k < |w.live| ==> Collected(seen, w, cfg, lights.shadows, k)
      {
        CollectLight(seen, ls[i], seen + [ls[i]], cache, cfg, dist, lights, w);
        assert ls[..i + 1] == ls[..i] + [ls[i]];
        seen := seen + [ls[i]];
        i := i + 1;
      }
      assert ls[..|ls|] == ls;
    }

    /** The collecting loop over the rooms that are there and on. */
    method Collect(rooms: seq<RoomRendererRecord?>, cache: LightCache, cfg: DistanceShadowsConfig, dist: seq<real>,
                   lights: LightTable, ghost w: World)
      requires lights.Valid() && WorldValid(w)
      requires w == World(cache.hadShadows, lights.live, lights.intensity, lights.shadows, dist)
      modifies this, lights
      ensures lights.Valid() && lights.live == old(lights.live) && lights.intensity == old(lights.intensity)
      ensures lights.resolution == old(lights.resolution)
      ensures candidates == CandidatesOf(OnLights(rooms), w, cfg)
      ensures forall k :: 0 <= k < |w.live| ==> Collected(OnLights(rooms), w, cfg, lights.shadows, k)
    {
      candidates := [];
      var k := 0;
      ghost var seen: seq<int> := [];
      while k < |rooms|
        invariant 0 <= k <= |rooms| && seen == OnLights(rooms[..k])
        invariant lights.Valid() && lights.live == old(lights.live) && lights.intensity == old(lights.intensity)
        invariant lights.resolution == old(lights.resolution)
        invariant candidates == CandidatesOf(seen, w, cfg)
        invariant forall l :: 0 <= l < |w.live| ==> Collected(seen, w, cfg, lights.shadows, l)
      {
        var room := rooms[k];
        OnLightsStep(rooms, k);
        if room != null && room.renderState == On {
          CollectRoom(room.lights, seen, seen + room.lights, cache, cfg, dist, lights, w);
          seen := seen + room.lights;
        }
        assert seen == OnLights(rooms[..k + 1]);
        k := k + 1;
      }
      assert rooms[..|rooms|] == rooms;
    }

    /** One candidate of the budget loop. */
    method GrantOne(i: int, ghost next: int, allowed: int, cfg: DistanceShadowsConfig, lights: LightTable, ghost w: World,
                    ghost collected: seq<Shadows>, ghost res0: seq<ShadowResolution>)
      requires 0 <= i < |candidates| && next == i + 1 && 0 <= allowed
      requires lights.Valid() && WorldValid(w) && w.live == lights.live
      requires |collected| == |res0| == |w.live|
      requires forall j :: 0 <= j < |candidates| ==> WellFormed(w, cfg, candidates[j])
      requires forall k :: 0 <= k < |w.live| ==>
                 Budgeted(candidates, i, allowed, cfg.forceLowResolution, w, cfg, collected, res0, lights.shadows,
                          lights.resolution, k)
      modifies lights
      ensures lights.Valid() && lights.live == old(lights.live) && lights.intensity == old(lights.intensity)
      ensures forall k :: 0 <= k < |w.live| ==>
                Budgeted(candidates, next, allowed, cfg.forceLowResolution, w, cfg, collected, res0, lights.shadows,
                         lights.resolution, k)
    {
      var c := candidates[i];
      var l := c.light;
      assert WellFormed(w, cfg, c);
      ghost var before, beforeRes := lights.shadows, lights.resolution;
      if i < allowed {
        if cfg.forceLowResolution && lights.resolution[l] != Low {
          lights.resolution := lights.resolution[l := Low];
        }
        if lights.shadows[l] != c.mode {
          lights.shadows := lights.shadows[l := c.mode];
        }
      } else {
        if lights.shadows[l] != NoShadows {
          lights.shadows := lights.shadows[l := NoShadows];
        }
      }
      forall k | 0 <= k < |w.live|
        ensures Budgeted(candidates, next, allowed, cfg.forceLowResolution, w, cfg, collected, res0, lights.shadows,
                         lights.resolution, k)
      {
        assert Budgeted(candidates, i, allowed, cfg.forceLowResolution, w, cfg, collected, res0, before, beforeRes, k);
        if k == l {
          assert Occurs(candidates, next, k);
          assert Within(candidates, next, allowed, k) <==> i < allowed && Within(candidates, i, allowed, k);
          if i < allowed {
            assert Occurs(candidates, next, k);
          }
        } else {
          assert Occurs(candidates, next, k) <==> Occurs(candidates, i, k);
          assert Within(candidates, next, allowed, k) <==> Within(candidates, i, allowed, k);
          assert Occurs(candidates, if next < allowed then next else allowed, k) <==>
                 Occurs(candidates, if i < allowed then i else allowed, k);
        }
      }
    }

    /** The budget loop over the sorted candidates: the first `allowed` get their mode, the rest none. */
    method Grant(allowed: int, cfg: DistanceShadowsConfig, lights: LightTable, ghost w: World)
      requires 0 <= allowed && lights.Valid() && WorldValid(w) && w.live == lights.live
      requires forall j :: 0 <= j < |candidates| ==> WellFormed(w, cfg, candidates[j])
      modifies lights
      ensures lights.Valid() && lights.live == old(lights.live) && lights.intensity == old(lights.intensity)
      ensures forall k :: 0 <= k < |w.live| ==>
                Budgeted(candidates, |candidates|, allowed, cfg.forceLowResolution, w, cfg, old(lights.shadows),
                         old(lights.resolution), lights.shadows, lights.resolution, k)
    {
      ghost var collected, res0 := lights.shadows, lights.resolution;
      var i := 0;
      while i < |candidates|
        invariant 0 <= i <= |candidates|
        invariant lights.Valid() && lights.live == old(lights.live) && lights.intensity == old(lights.intensity)
        invariant forall k :: 0 <= k < |w.live| ==>
                    Budgeted(candidates, i, allowed, cfg.forceLowResolution, w, cfg, collected, res0, lights.shadows,
                             lights.resolution, k)
      {
        GrantOne(i, i + 1, allowed, cfg, lights, w, collected, res0);
        i := i + 1;
      }
    }

    /**
     * `Apply(roomsOn, camPos, cache, cfg)`: with no budget every light of the rooms loses its shadows. Otherwise
     * the candidates of the rooms that are on are collected and sorted by distance; without one, every light
     * of the rooms loses its shadows; with some, the nearest `min(ShadowsCount, n)` get their mode (and Low
     * resolution when asked) and the rest none.
     */
    method Apply(rooms: seq<RoomRendererRecord?>, dist: seq<real>, cache: LightCache, cfg: DistanceShadowsConfig,
                 lights: LightTable)
      requires lights.Valid() && |dist| == |lights.live|
      modifies this, lights
      ensures lights.Valid() && lights.live == old(lights.live) && lights.intensity == old(lights.intensity)
      ensures Chosen(AllLights(rooms), OnLights(rooms), cfg,
                     World(cache.hadShadows, lights.live, lights.intensity, old(lights.shadows), dist),
                     old(lights.resolution), old(candidates), candidates, lights.shadows, lights.resolution)
    {
      if cfg.shadowsCount <= 0 {
        ForceNone(rooms, lights);
        return;
      }
      ghost var w := World(cache.hadShadows, lights.live, lights.intensity, lights.shadows, dist);
      ghost var on := OnLights(rooms);
      Collect(rooms, cache, cfg, dist, lights, w);
      assert OnLights(rooms) == on;
      if |candidates| == 0 {
        ClearCollected(rooms, cfg, lights, w);
        assert OnLights(rooms) == on;
        return;
      }
      SortAndGrant(on, cfg, lights, w);
      assert OnLights(rooms) == on;
    }

    /** No candidate: `ForceNone` over the rooms, after the collecting loop. */
    method ClearCollected(rooms: seq<RoomRendererRecord?>, cfg: DistanceShadowsConfig, lights: LightTable,
                          ghost w: World)
      requires lights.Valid() && WorldValid(w) && w.live == lights.live
      requires forall k :: 0 <= k < |w.live| ==> Collected(OnLights(rooms), w, cfg, lights.shadows, k)
      modifies lights
      ensures lights.Valid() && lights.live == old(lights.live) && lights.intensity == old(lights.intensity)
      ensures lights.resolution == old(lights.resolution)
      ensures forall l :: 0 <= l < |lights.live| ==> Cleared(AllLights(rooms), lights.live, w.shadows, lights.shadows, l)
    {
      ForceNone(rooms, lights);
      forall l | 0 <= l < |lights.live|
        ensures Cleared(AllLights(rooms), lights.live, w.shadows, lights.shadows, l)
      {
        assert Cleared(AllLights(rooms), lights.live, old(lights.shadows), lights.shadows, l);
        assert Collected(OnLights(rooms), w, cfg, old(lights.shadows), l);
        OnLightsInAll(rooms, l);
      }
    }

    /** The sort and the budget loop, after the collecting loop found some candidates. */
    method SortAndGrant(ghost onLights: seq<int>, cfg: DistanceShadowsConfig, lights: LightTable,
                        ghost w: World)
      requires lights.Valid() && WorldValid(w) && w.live == lights.live && cfg.shadowsCount > 0
      requires candidates == CandidatesOf(onLights, w, cfg) && |candidates| > 0
      requires forall k :: 0 <= k < |w.live| ==> Collected(onLights, w, cfg, lights.shadows, k)
      modifies this, lights
      ensures lights.Valid() && lights.live == old(lights.live) && lights.intensity == old(lights.intensity)
      ensures multiset(candidates) == multiset(old(candidates)) && SortedBy(candidates, Distance)
      ensures forall l :: 0 <= l < |lights.live| ==>
                Selected(onLights, candidates, Allowed(cfg, candidates), cfg.forceLowResolution, w, cfg,
                         old(lights.resolution), lights.shadows, lights.resolution, l)
    {
      ghost var collected := lights.shadows;
      ghost var unsorted := candidates;
      candidates := SortBy(candidates, Distance);
      forall j | 0 <= j < |candidates|
        ensures WellFormed(w, cfg, candidates[j])
      {
        assert candidates[j] in multiset(unsorted);
        CandidatesOfMembers(onLights, w, cfg, candidates[j]);
      }
      var allowed := Allowed(cfg, candidates);
      Grant(allowed, cfg, lights, w);
      forall l | 0 <= l < |lights.live|
        ensures Selected(onLights, candidates, allowed, cfg.forceLowResolution, w, cfg, old(lights.resolution),
                         lights.shadows, lights.resolution, l)
      {
        SelectedFrom(onLights, unsorted, candidates, allowed, cfg, w, collected, old(lights.resolution),
                     lights.shadows, lights.resolution, l);
      }
    }
  }

  /** `allowed = Mathf.Min(cfg.ShadowsCount, _candidates.Count)`. */
  function Allowed(cfg: DistanceShadowsConfig, c: seq<Candidate>): (n: int)
    ensures n <= |c| && n <= cfg.shadowsCount
    ensures n == |c| || n == cfg.shadowsCount
  {
    if cfg.shadowsCount < |c| then cfg.shadowsCount else |c|
  }

  lemma {:induction false} OccursMonotone(c: seq<Candidate>, a: int, b: int, l: int)
    requires 0 <= a <= b <= |c|
    ensures Occurs(c, a, l) ==> Occurs(c, b, l)
  {
    if Occurs(c, a, l) {
      var j :| 0 <= j < a && c[j].light == l;
      assert 0 <= j < b && c[j].light == l;
    }
  }

  /** The outcome on one light, from what the collecting and budget loops left on it. */
  lemma SelectedFrom(onLights: seq<int>, unsorted: seq<Candidate>, c: seq<Candidate>, allowed: int,
                     cfg: DistanceShadowsConfig, w: World, collected: seq<Shadows>, res0: seq<ShadowResolution>,
                     shadows: seq<Shadows>, res: seq<ShadowResolution>, l: int)
    requires WorldValid(w) && 0 <= allowed && 0 <= l < |w.live|
    requires |collected| == |res0| == |shadows| == |res| == |w.live|
    requires unsorted == CandidatesOf(onLights, w, cfg) && multiset(c) == multiset(unsorted)
    requires Collected(onLights, w, cfg, collected, l)
    requires Budgeted(c, |c|, allowed, cfg.forceLowResolution, w, cfg, collected, res0, shadows, res, l)
    ensures Selected(onLights, c, allowed, cfg.forceLowResolution, w, cfg, res0, shadows, res, l)
  {
    var v := VerdictOf(w, cfg, l);
    if w.live[l] && l in onLights && v.Keep? {
      var e := Candidate(l, w.dist[l], v.mode);
      CandidatesOfMembers(onLights, w, cfg, e);
      assert e in multiset(c);
      var j :| 0 <= j < |c| && c[j] == e;
      assert Occurs(c, |c|, l);
    } else {
      OccursMonotone(c, if |c| < allowed then |c| else allowed, |c|, l);
      if Occurs(c, |c|, l) {
        var j :| 0 <= j < |c| && c[j].light == l;
        assert c[j] in multiset(unsorted);
        CandidatesOfMembers(onLights, w, cfg, c[j]);
        assert false;
      }
    }
  }
}

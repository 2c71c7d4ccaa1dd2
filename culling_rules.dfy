/**
 * The decisions the culling engine takes per room and the configurations it derives per pass: the state a
 * tick leaves a room in (band check, then hysteresis between the enable and disable thresholds), the state
 * the priming gives it, and the intensity and shadow configurations read from the validated settings.
 */
module CullingRules {
  import opened Geometry
  import opened RoomRecords
  import opened CullingConfig
  import opened LightIntensityUtils
  import opened ShadowSelection

  /** What a tick or the priming reads besides the room: the user's position, the tolerance and the squared thresholds. */
  datatype Probe = Probe(user: Vec3, verticalTolerance: real, enableSqr: real, disableSqr: real)

  /** `useVert && Mathf.Abs(c.y - userPosition.y) > VerticalTolerance`, with `useVert` meaning a positive tolerance. */
  predicate OutOfBand(c: Vec3, p: Probe) {
    p.verticalTolerance > 0.0 && Abs(c.y - p.user.y) > p.verticalTolerance
  }

  /** `(c - userPosition).sqrMagnitude`. */
  function DistanceSqr(c: Vec3, p: Probe): (d2: real)
    ensures d2 >= 0.0
  {
    SqrMagnitude(Sub(c, p.user))
  }

  /**
   * The state one check of `Tick` leaves a room in: Off without renderers or out of the vertical band; an Off
   * room comes on within the enable threshold, an On room goes off at or beyond the disable threshold.
   */
  function Ticked(s: RenderState, hasRenderers: bool, c: Vec3, p: Probe): RenderState {
    if !hasRenderers || OutOfBand(c, p) then Off
    else if s == Off then (if DistanceSqr(c, p) <= p.enableSqr then On else Off)
    else if DistanceSqr(c, p) >= p.disableSqr then Off
    else On
  }

  /**
   * Hysteresis: a check switches a room on only from within the enable threshold and off only from at or
   * beyond the disable threshold (or for leaving the band or having no renderers); strictly between the two
   * thresholds a room keeps its state.
   */
  lemma TickedHysteresis(s: RenderState, hasRenderers: bool, c: Vec3, p: Probe)
    ensures s == Off && Ticked(s, hasRenderers, c, p) == On ==>
              hasRenderers && !OutOfBand(c, p) && DistanceSqr(c, p) <= p.enableSqr
    ensures s == On && Ticked(s, hasRenderers, c, p) == Off ==>
              !hasRenderers || OutOfBand(c, p) || DistanceSqr(c, p) >= p.disableSqr
    ensures hasRenderers && !OutOfBand(c, p) && p.enableSqr < DistanceSqr(c, p) < p.disableSqr ==>
              Ticked(s, hasRenderers, c, p) == s
    ensures !hasRenderers || OutOfBand(c, p) ==> Ticked(s, hasRenderers, c, p) == Off
  {
  }

  /** With the enable threshold below the disable threshold, a second check from the same place changes nothing. */
  lemma TickedStable(s: RenderState, hasRenderers: bool, c: Vec3, p: Probe)
    requires p.enableSqr < p.disableSqr
    ensures Ticked(Ticked(s, hasRenderers, c, p), hasRenderers, c, p) == Ticked(s, hasRenderers, c, p)
  {
  }

  /**
   * When the two thresholds are equal, which validation allows, a room with renderers in the band at exactly
   * that squared distance changes state on every check.
   */
  lemma TickedTogglesAtEqualThresholds(c: Vec3, p: Probe)
    requires !OutOfBand(c, p) && p.enableSqr == p.disableSqr == DistanceSqr(c, p)
    ensures Ticked(Off, true, c, p) == On && Ticked(On, true, c, p) == Off
  {
  }

  /** A check of `Tick` zeroes the room's lights: the room has renderers, is in the band, and ends Off. */
  predicate ZeroesLights(s: RenderState, hasRenderers: bool, c: Vec3, p: Probe) {
    hasRenderers && !OutOfBand(c, p) && Ticked(s, hasRenderers, c, p) == Off
  }

  /**
   * The states a tick that visits the rooms `v` leaves, for rooms in the states `states` centred at `centers`;
   * `TickTargetsAt` gives its elements.
   */
  function TickTargets(rooms: seq<RoomRendererRecord>, states: seq<RenderState>, centers: seq<Vec3>, v: seq<int>,
                       p: Probe): (t: seq<RenderState>)
    requires |states| == |rooms| && |centers| == |rooms|
    ensures |t| == |rooms|
  {
    if |rooms| == 0 then []
    else
      var n := |rooms| - 1;
      TickTargets(rooms[..n], states[..n], centers[..n], v, p) +
        [if n in v then Ticked(states[n], |rooms[n].renderers| > 0, centers[n], p) else states[n]]
  }

  /** Every visited room reaches the state one check gives it, every other room keeps its state. */
  lemma {:induction false} TickTargetsAt(rooms: seq<RoomRendererRecord>, states: seq<RenderState>, centers: seq<Vec3>,
                                         v: seq<int>, p: Probe)
    requires |states| == |rooms| && |centers| == |rooms|
    ensures forall j :: 0 <= j < |rooms| ==>
              TickTargets(rooms, states, centers, v, p)[j] ==
                if j in v then Ticked(states[j], |rooms[j].renderers| > 0, centers[j], p) else states[j]
  {
    if |rooms| > 0 {
      var n := |rooms| - 1;
      TickTargetsAt(rooms[..n], states[..n], centers[..n], v, p);
      assert forall j :: 0 <= j < n ==>
               rooms[..n][j] == rooms[j] && states[..n][j] == states[j] && centers[..n][j] == centers[j];
    }
  }

  /** `n` rooms all in state `s`, the states `ForceAllOff` and `ForceAllOn` leave. */
  function Uniform(n: nat, s: RenderState): (t: seq<RenderState>)
    ensures |t| == n
  {
    seq(n, _ => s)
  }

  /** The state `PrimeInitial` gives a room: Off out of the band, otherwise On exactly within the enable threshold. */
  function Primed(c: Vec3, p: Probe): RenderState {
    if OutOfBand(c, p) then Off
    else if DistanceSqr(c, p) <= p.enableSqr then On
    else Off
  }

  /** `PrimeInitial` zeroes a room's lights when the room is in the band and stays Off. */
  predicate PrimeZeroes(c: Vec3, p: Probe) {
    !OutOfBand(c, p) && Primed(c, p) == Off
  }

  /** The states `PrimeInitial` gives rooms centred at `centers`. */
  function PrimeTargets(centers: seq<Vec3>, p: Probe): (t: seq<RenderState>)
    ensures |t| == |centers| && forall j {:trigger t[j]} :: 0 <= j < |centers| ==> t[j] == Primed(centers[j], p)
  {
    if |centers| == 0 then [] else PrimeTargets(centers[..|centers| - 1], p) + [Primed(centers[|centers| - 1], p)]
  }

  /**
   * Priming a room with renderers is the check of a tick on a room that is Off; a room without renderers is
   * primed by the same rule, which a tick would switch off.
   */
  lemma PrimedIsTickFromOff(c: Vec3, p: Probe)
    ensures Primed(c, p) == Ticked(Off, true, c, p)
    ensures Primed(c, p) == On <==> !OutOfBand(c, p) && DistanceSqr(c, p) <= p.enableSqr
  {
  }

  /** The squared thresholds of validated settings are ordered: `0 <= enable * enable <= disable * disable`. */
  lemma ThresholdsOrdered(s: Settings)
    requires Validated(s)
    ensures 0.0 <= s.roomEnableDistance * s.roomEnableDistance <= s.roomDisableDistance * s.roomDisableDistance
  {
    var e, d := s.roomEnableDistance, s.roomDisableDistance;
    assert e * e <= e * d;
    assert e * d <= d * d;
  }

  /**
   * The `RoomLightIntensityConfig` of a pass: the inner distance at least 0, the disable distance at least the
   * configured inner one and the exponent at least 1; on validated settings, exactly the configured values.
   */
  function IntensityConfigFor(s: Settings): (c: IntensityConfig)
    ensures c.maxIntensityDistance >= 0.0 && c.innerFalloffPower >= 1.0
    ensures c.disableDistance >= s.lightMaxIntensityDistance && c.disableDistance >= s.lightDisableDistance
    ensures Validated(s) ==>
              c == IntensityConfig(s.lightMaxIntensityDistance, s.lightDisableDistance, s.innerFalloffPower)
  {
    IntensityConfig(Max(0.0, s.lightMaxIntensityDistance), Max(s.lightMaxIntensityDistance, s.lightDisableDistance),
                    Max(1.0, s.innerFalloffPower))
  }

  /**
   * The `DistanceShadowsConfig` of a pass: a budget of at least 0, a soft band entered from at least 0 and
   * left one unit further, a shadow band entered no nearer than the soft one and left two units further, and
   * low resolution forced; on validated settings the budget and the two enter distances are the configured ones.
   */
  function ShadowConfigFor(s: Settings): (c: DistanceShadowsConfig)
    ensures c.shadowsCount >= 0 && c.forceLowResolution
    ensures 0.0 <= c.softEnter <= c.maxEnter < c.maxExit
    ensures c.softExit == c.softEnter + 1.0 && c.maxExit == c.maxEnter + 2.0
    ensures c.shadowsCount >= s.shadowsCount && c.maxEnter >= s.maxShadowDistance
    ensures Validated(s) ==>
              c.shadowsCount == s.shadowsCount && c.softEnter == s.softShadowDistance &&
              c.maxEnter == s.maxShadowDistance
  {
    var softEnter := Max(0.0, s.softShadowDistance);
    var maxEnter := Max(softEnter, s.maxShadowDistance);
    DistanceShadowsConfig(true, maxEnter, maxEnter + 2.0, MaxI(0, s.shadowsCount), softEnter, softEnter + 1.0)
  }
}

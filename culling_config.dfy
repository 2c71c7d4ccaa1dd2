/**
 * The culling engine's settings and their validation.
 *
 * `ValidateValues` overwrites the public fields one after another with clamped values. The model keeps
 * the fields of the class and, beside it, the same eleven numbers as a value `Settings`, on which the
 * clamping is a function whose properties are proved once.
 */
module CullingConfig {
  import opened Geometry

  /** The numeric fields of a `RoomCullingConfig`, as one value. */
  datatype Settings = Settings(
    roomEnableDistance: real, roomDisableDistance: real,
    lightEnableDistance: real, lightDisableDistance: real, lightMaxIntensityDistance: real,
    innerFalloffPower: real, verticalTolerance: real,
    checksPerFrame: int, shadowsCount: int,
    maxShadowDistance: real, softShadowDistance: real)

  /** `Mathf.Max` on integers. */
  function MaxI(a: int, b: int): int { if a >= b then a else b }

  /** Every bound `ValidateValues` establishes. */
  predicate Validated(s: Settings) {
    s.checksPerFrame >= 1 && s.shadowsCount >= 0 &&
    0.0 <= s.roomEnableDistance <= s.roomDisableDistance &&
    0.0 <= s.lightEnableDistance <= s.lightDisableDistance &&
    0.0 <= s.lightMaxIntensityDistance <= s.lightDisableDistance &&
    s.innerFalloffPower >= 1.0 && s.verticalTolerance >= 0.0 &&
    0.0 <= s.softShadowDistance <= s.maxShadowDistance
  }

  /** Every field of `after` is at least the same field of `before`. */
  predicate NoneLowered(before: Settings, after: Settings) {
    after.roomEnableDistance >= before.roomEnableDistance && after.roomDisableDistance >= before.roomDisableDistance &&
    after.lightEnableDistance >= before.lightEnableDistance && after.lightDisableDistance >= before.lightDisableDistance &&
    after.lightMaxIntensityDistance >= before.lightMaxIntensityDistance &&
    after.innerFalloffPower >= before.innerFalloffPower && after.verticalTolerance >= before.verticalTolerance &&
    after.checksPerFrame >= before.checksPerFrame && after.shadowsCount >= before.shadowsCount &&
    after.maxShadowDistance >= before.maxShadowDistance && after.softShadowDistance >= before.softShadowDistance
  }

  /**
   * The settings after `ValidateValues`: each field clamped, in the order the method overwrites them. Clamping
   * only ever raises a field, and a field already within its bound is kept.
   */
  function Validate(s: Settings): (r: Settings)
    ensures Validated(r)
    ensures s.checksPerFrame >= 1 ==> r.checksPerFrame == s.checksPerFrame
    ensures s.shadowsCount >= 0 ==> r.shadowsCount == s.shadowsCount
    ensures s.roomEnableDistance >= 0.0 ==> r.roomEnableDistance == s.roomEnableDistance
    ensures NoneLowered(s, r)
  {
    var roomEnable := Max(0.0, s.roomEnableDistance);
    var lightEnable := Max(0.0, s.lightEnableDistance);
    var lightMax := Max(0.0, s.lightMaxIntensityDistance);
    var soft := Max(0.0, s.softShadowDistance);
    Settings(
      roomEnable, Max(roomEnable, s.roomDisableDistance),
      lightEnable, Max(Max(lightEnable, s.lightDisableDistance), lightMax), lightMax,
      Max(1.0, s.innerFalloffPower), Max(0.0, s.verticalTolerance),
      MaxI(1, s.checksPerFrame), MaxI(0, s.shadowsCount),
      Max(soft, s.maxShadowDistance), soft)
  }

  /** Settings that already meet every bound are left as they are ... */
  lemma ValidatedUnchanged(s: Settings)
    requires Validated(s)
    ensures Validate(s) == s
  {
  }

  /** ... so validating twice is validating once. */
  lemma ValidateIdempotent(s: Settings)
    ensures Validate(Validate(s)) == Validate(s)
  {
    ValidatedUnchanged(Validate(s));
  }

  /** The field defaults of `RoomCullingConfig`. */
  const Defaults: Settings := Settings(80.0, 100.0, 30.0, 40.0, 20.0, 1.0, 10.0, 64, 12, 60.0, 50.0)

  /** The defaults meet every bound, so validating them changes nothing. */
  lemma DefaultsValidated()
    ensures Validated(Defaults) && Validate(Defaults) == Defaults
  {
  }

  /** `RoomCullingConfig`: public fields the host may set at any time, clamped by `ValidateValues`. */
  class RoomCullingConfig {
    var roomEnableDistance: real
    var roomDisableDistance: real
    var lightEnableDistance: real
    var lightDisableDistance: real
    var lightMaxIntensityDistance: real
    var innerFalloffPower: real
    var verticalTolerance: real
    var checksPerFrame: int
    var shadowsCount: int
    var maxShadowDistance: real
    var softShadowDistance: real
    var applyMaxShadowDistanceToRenderPipeline: bool

    /** The numeric fields as one value. */
    function Values(): Settings
      reads this
    {
      Settings(roomEnableDistance, roomDisableDistance, lightEnableDistance, lightDisableDistance,
               lightMaxIntensityDistance, innerFalloffPower, verticalTolerance, checksPerFrame, shadowsCount,
               maxShadowDistance, softShadowDistance)
    }

    /** A config with the field defaults. */
    constructor ()
      ensures Values() == Defaults && applyMaxShadowDistanceToRenderPipeline
    {
      roomEnableDistance, roomDisableDistance := 80.0, 100.0;
      lightEnableDistance, lightDisableDistance, lightMaxIntensityDistance := 30.0, 40.0, 20.0;
      innerFalloffPower, verticalTolerance := 1.0, 10.0;
      checksPerFrame, shadowsCount := 64, 12;
      maxShadowDistance, softShadowDistance := 60.0, 50.0;
      applyMaxShadowDistanceToRenderPipeline := true;
    }

    /** `ValidateValues`: the fields become their clamped values; the render-pipeline flag is kept. */
    method ValidateValues()
      modifies this
      ensures Values() == Validate(old(Values())) && Validated(Values())
      ensures applyMaxShadowDistanceToRenderPipeline == old(applyMaxShadowDistanceToRenderPipeline)
    {
      checksPerFrame := MaxI(1, checksPerFrame);

      roomEnableDistance := Max(0.0, roomEnableDistance);
      roomDisableDistance := Max(roomEnableDistance, roomDisableDistance);

      lightEnableDistance := Max(0.0, lightEnableDistance);
      lightDisableDistance := Max(lightEnableDistance, lightDisableDistance);

      lightMaxIntensityDistance := Max(0.0, lightMaxIntensityDistance);
      lightDisableDistance := Max(lightDisableDistance, lightMaxIntensityDistance);

      innerFalloffPower := Max(1.0, innerFalloffPower);

      verticalTolerance := Max(0.0, verticalTolerance);

      softShadowDistance := Max(0.0, softShadowDistance);
      maxShadowDistance := Max(softShadowDistance, maxShadowDistance);

      shadowsCount := MaxI(0, shadowsCount);
    }
  }
}

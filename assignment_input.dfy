/**
 * The input of one channel assignment (`LightRenderLayerAssignmentInput`).
 *
 * The record carries `proximityFactor`, which the service reads and the controller passes; see the notes on
 * the input record in the README.
 */
module AssignmentInput {
  import opened Wrappers
  import opened Geometry
  import opened Scene

  /** A negative `now` stands for "use the host's clock". */
  const HostClock: real := -1.0
  const DefaultMoveGate: real := 0.5
  const DefaultCoolDownSeconds: real := 0.5

  datatype Input = Input(roomsRoot: Option<Hierarchy>, minSeparation: real, proximityFactor: int,
                         includeInactiveChildren: bool, playerPosition: Option<Vec3>,
                         radiusIn: real, radiusOut: real, moveGate: real, coolDownSeconds: real, now: real)
  {
    /** Dynamic mode needs an observer position and a positive inner radius. */
    predicate DynamicMode() {
      playerPosition.Some? && radiusIn > 0.0
    }
  }

  /**
   * The constructor: every argument is stored as given, except that the outer radius is raised to the
   * inner one.
   */
  function NewInput(roomsRoot: Option<Hierarchy>, minSeparation: real, proximityFactor: int,
                    includeInactiveChildren: bool := false, playerPosition: Option<Vec3> := None,
                    radiusIn: real := 0.0, radiusOut: real := 0.0, moveGate: real := DefaultMoveGate,
                    coolDownSeconds: real := DefaultCoolDownSeconds, now: real := HostClock): (r: Input)
    ensures r.radiusOut >= r.radiusIn
    ensures r.radiusOut == radiusOut || (radiusOut < radiusIn && r.radiusOut == radiusIn)
    ensures r.roomsRoot == roomsRoot && r.minSeparation == minSeparation && r.proximityFactor == proximityFactor
    ensures r.includeInactiveChildren == includeInactiveChildren && r.playerPosition == playerPosition
    ensures r.radiusIn == radiusIn && r.moveGate == moveGate && r.coolDownSeconds == coolDownSeconds
    ensures r.now == now
  {
    Input(roomsRoot, minSeparation, proximityFactor, includeInactiveChildren, playerPosition,
          radiusIn, Max(radiusOut, radiusIn), moveGate, coolDownSeconds, now)
  }

  /** `Assign` takes `now` from the input unless it is negative, when it reads the host clock. */
  function NowOf(input: Input, hostTime: real): (t: real)
    ensures input.now >= 0.0 ==> t == input.now
    ensures t == input.now || t == hostTime
    ensures t >= 0.0 || t == hostTime
  {
    if input.now >= 0.0 then input.now else hostTime
  }

  /** An input built without an observer position is static, and its clock is the host's. */
  lemma DefaultsAreStatic(roomsRoot: Option<Hierarchy>, minSeparation: real, proximityFactor: int,
                          includeInactiveChildren: bool, hostTime: real)
    ensures var input := NewInput(roomsRoot, minSeparation, proximityFactor, includeInactiveChildren);
            !input.DynamicMode() && NowOf(input, hostTime) == hostTime &&
            input.moveGate == 0.5 && input.coolDownSeconds == 0.5 && input.radiusOut == 0.0
  {
  }

  /** Dynamic mode exactly when a position is given with a positive inner radius, whatever the other fields. */
  lemma DynamicModeOfNewInput(roomsRoot: Option<Hierarchy>, minSeparation: real, proximityFactor: int,
                              includeInactiveChildren: bool, playerPosition: Option<Vec3>,
                              radiusIn: real, radiusOut: real, moveGate: real, coolDownSeconds: real, now: real)
    ensures NewInput(roomsRoot, minSeparation, proximityFactor, includeInactiveChildren, playerPosition,
                     radiusIn, radiusOut, moveGate, coolDownSeconds, now).DynamicMode()
            <==> playerPosition.Some? && radiusIn > 0.0
  {
  }
}
